# kbldle scoring core in Dafny

A model of the guess-scoring engine of the kbldle "guess the KBL player"
game server (`api/index.py`). A user types a player's name. The server
resolves the name to a roster row and compares that row with a secret
answer row. Each of six attributes gets a signal: green (match), yellow
(near match) or black (no match). The six attributes are team, jersey
number, position, height, player type and draft. When the two names are
equal, every signal is green and the guess is correct.

Modules, one per component of the server file:

- `Wrappers` (`wrappers.dfy`): `Option` and `Result`.
- `Text` (`text.dfy`): Python's `int(s)` as the total `ParseInt`,
  `str.upper()` on ASCII, and `normalize_name` as `Normalize`. Unicode NFC
  and `str.lower()` are opaque library behaviour. They are passed in as the
  two functions of a `TextLib` value.
- `Players` (`players.dfy`): the eleven-column `Player` record, the
  `NAME2IDX` / `NORMNAME2IDX` dictionaries (`IndexMap`, built by
  `BuildIndex`), and the `NAME2IDX.get(raw) or NORMNAME2IDX.get(...)` lookup
  (`Lookup`, `Resolve`).
- `Scoring` (`scoring.dfy`): the helpers `within`, `height_tens_equal`,
  `pos_group`, `draft_tuple` and `draft_yellow`; one signal function per
  attribute; `Colors`, the dictionary `compare_fields` returns; and
  `CompareFields`, which fills that dictionary step by step and runs the
  same-name override loop.
- `Game` (`game.dfy`): the class `GameState`. It holds the roster, the two
  dictionaries and the mutable `CURRENT_ANSWER_IDX`. It also holds
  `reset_answer`, `answer_player`, and the lookup-and-score steps of the
  guess and player-info handlers.

Notable rules of this file:

- Height is yellow when both heights fall in the same ten-centimetre bucket
  (`int(h) // 10`), so "198" against "200" is black
  (`Scoring.HeightExamples`).
- Position is green only for equal non-empty text. It is yellow when the
  C/F/G letter groups agree. Two empty positions are therefore yellow.
- Draft is green when year, type, round and overall pick all agree. It is
  yellow when type and round are non-empty and agree.
- Teams and player types are compared as raw text. Names are resolved
  without regard to team. One global answer index is drawn lazily.
- The name dictionaries keep the LAST roster index for each key, because a
  dict comprehension overwrites earlier entries.
- Python's `or` treats index 0 as false. So an exact-name hit on roster row
  0 falls through to the normalized dictionary, which may return another
  player (`Players.ResolveIndexZeroExample`).

## Model

| member | source | states |
|---|---|---|
| Text.RemoveSpaces | api/index.py:29 | the result holds exactly the non-space characters of the input, is no longer than it, and equals the input when the input has no space |
| Text.RemoveSpacesConcat | api/index.py:29 | dropping spaces from a concatenation drops them from each part and concatenates, so order and repetitions are kept |
| Text.NormalizeNoSpace | api/index.py:27-30 | a normalized name contains no space (given that lower-casing adds none), and the empty name normalizes to the empty name |
| Text.Upper | api/index.py:41 | the upper-cased text has the same length, each character upper-cased on its own (ASCII letters only) |
| Text.UpperHas | api/index.py:41 | an upper-case letter occurs in the upper-cased text iff it or its lower-case form occurs in the original |
| Text.ParseInt | api/index.py:120 | the empty text never parses, and a parsed text that does not start with a digit starts with a sign |
| Text.ParseIntSyntax | api/index.py:120 | a text parses iff it is one or more decimal digits, optionally after a single + or -, and its value is the signed digit value |
| Text.ParseIntExamples | api/index.py:120 | "+7" is 7 and "-12" is -12, while "12a", "1 2", "+" and the empty text fail |
| Text.ParseIntRoundTrip | api/index.py:120 | parsing the decimal rendering of every integer, negative ones included, gives that integer back |
| Text.ParseIntLeadingZero | api/index.py:37 | a leading zero on a non-empty digit string parses to the same value |
| Players.BuildIndex | api/index.py:75-76 | inserting key i -> i in index order builds exactly the comprehension's dictionary |
| Players.IndexMapLast | api/index.py:75-76 | the dictionary's keys are exactly the listed keys, and each key maps to the last index carrying it |
| Players.ResolveSound | api/index.py:143 | a found index is on the roster, and its player has the typed name exactly or after normalization |
| Players.ResolveNone | api/index.py:143-145 | the lookup reports "not registered" iff no roster name normalizes to the normalized typed name |
| Players.ResolveExactLast | api/index.py:143 | an exact name whose last roster index is not 0 resolves to that last index |
| Players.ResolveIndexZeroFallsThrough | api/index.py:143 | an exact name held only by row 0 resolves to the last row with the same normalized name |
| Players.ResolveIndexZeroExample | api/index.py:143 | with rows "Kim A" then "KimA", typing "Kim A" resolves to row 1, not row 0 |
| Scoring.PosGroup | api/index.py:40-45 | the group is one of C, F, G; C iff the text holds c or C; F iff no C but an f or F; otherwise G, the empty text included |
| Scoring.ExactSignal | api/index.py:117 | team and player type are never yellow, and are green iff the texts are equal |
| Scoring.NumberSignal | api/index.py:119-122 | green iff both numbers parse to equal integers; yellow iff both parse and differ by 1 or 2; black whenever either side fails to parse |
| Scoring.PositionSignal | api/index.py:124-125 | green iff the guess is non-empty and equal to the answer; otherwise yellow iff the letter groups agree |
| Scoring.HeightSignal | api/index.py:127-128 | green iff both texts are non-empty and equal; otherwise yellow iff both parse with equal floor-tenths; a yellow pair is less than 10 apart |
| Scoring.DraftSignal | api/index.py:132 | green iff year, type, round and overall pick all agree; otherwise yellow iff type and round are non-empty and agree |
| Scoring.Colors | api/index.py:115-137 | the comparison is total: its keys are exactly the six attributes team, number, position, height, player type and draft |
| Scoring.CompareFields | api/index.py:115-137 | the step-by-step fill followed by the override loop yields exactly `Colors` of the two players |
| Scoring.IdentityOverride | api/index.py:133-136 | when the names agree, when the guess is correct (`is_correct` is name equality by definition), every signal is green whatever the other fields hold |
| Scoring.ColorsSymmetric | api/index.py:115-137 | swapping guess and answer never changes any signal |
| Scoring.HeightLeadingZeroIsYellow | api/index.py:127-128 | a height padded with a leading zero ("0200" against "200") is yellow, while the same pair as jersey numbers is green |
| Scoring.HeightBuckets | api/index.py:36-38 | two parsed heights in different ten-centimetre buckets are black |
| Scoring.NumberExamples | api/index.py:119-122 | 7 against 9 is yellow, 7 against 10 is black, -1 against +1 is yellow, two empty numbers are black |
| Scoring.HeightExamples | api/index.py:127-128 | "0200"/"200" yellow, "198"/"202" and "198"/"200" black, two empty heights black, equal non-numeric text green |
| Scoring.PositionExamples | api/index.py:124-125 | two empty positions are yellow, "F-C"/"C" yellow, "g"/"G" yellow, "G"/"F" black |
| Scoring.EmptyDraftsAreGreen | api/index.py:132 | two players with all four draft fields empty get a green draft signal |
| Game.GameState.constructor | api/index.py:74-76 | both dictionaries are built from the roster, and no answer is drawn yet |
| Game.GameState.ResetAnswer | api/index.py:78-81 | a non-empty roster gets the drawn index, which lies in the roster; an empty roster gets no answer |
| Game.GameState.AnswerPlayer | api/index.py:83-87 | draws only when no answer is held; a held answer is returned again with the state unchanged; the result is the roster row at the answer index |
| Game.GameState.FindIndex | api/index.py:143 | the lookup over the stored dictionaries finds a roster row with the exact or normalized name, and finds none iff no normalized name matches |
| Game.GameState.PlayerInfo | api/index.py:162-165 | returns exactly the roster row at the index the lookup finds, that row having the exact or normalized name, and not-found iff no normalized name matches |
| Game.GameState.Guess | api/index.py:142-156 | an unknown name is rejected and the answer is left untouched; otherwise the reply carries the guess's name, `Colors(guess, answer)`, and `is_correct` (equal names), and a correct guess is all green |

## Left out

- Flask set-up, routing, JSON and request parsing, and the `.strip()` of the typed name. `Guess` and `PlayerInfo` take the already stripped name.
- `index`, `api_status`, `health`, `api_players` and `api_teams`: web I/O only.
- `load_players` (file opening, CSV parsing, trimming, default columns). The `Player` record assumes every one of the eleven cells is a string. A CSV row shorter than the header leaves `None` in its missing cells, because `setdefault` only fills absent keys; `None` then compares unequal to `""` for team, player type and name, which the model does not capture.
- `now_utc_date_str` and `this_year_utc`: they read the clock and the core does not use them.
- The random draw of `reset_answer`. It is the caller-supplied index `r`, bounded by the roster size.
- `answer_player` on an empty roster, which fails in the source. `AnswerPlayer` requires a non-empty roster. `Guess` on an empty roster rejects every name before any answer is needed.
- Unicode NFC and `str.lower()`. These are the opaque functions of `TextLib`. The no-space property of normalized names assumes that lower-casing adds no space (`LowerAddsNoSpace`).
- Text.Upper: only ASCII a-z are upper-cased. Non-ASCII case mappings are not modelled, such as the ligature U+FB00 upper-casing to "FF", which `pos_group` would read as a forward.
- Text.ParseInt: accepts only an optional sign and ASCII decimal digits. Python's `int` also accepts surrounding whitespace, `_` between digits and non-ASCII decimal digits. The loader trims every field, so whitespace does not reach it.
- Text.ParseInt: accepts digit strings of any length. Python's `int` rejects base-10 text longer than its integer string-conversion limit (4300 digits by default, `sys.get_int_max_str_digits()`), and the source then scores black. For such texts `NumberSignal` and `HeightSignal` may give green or yellow where the source gives black.
- Text.ParseIntLeadingZero, Text.ParseIntRoundTrip, Scoring.HeightLeadingZeroIsYellow: they hold for Python's `int` only below its digit limit; at or above it, Python raises where the model parses.
- Concurrency: the server's global answer index is not guarded, and the model is sequential.
