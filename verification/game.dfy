/**
 * The server's state around the scoring engine: the roster with its two
 * name dictionaries, the single current answer index, and the
 * lookup-and-score step of the guess and player-info handlers.
 */
module Game {
  import opened Wrappers
  import opened Text
  import opened Players
  import opened Scoring

  /** The one error the guess handler reports: the name is not on the roster. */
  datatype GuessError = NotRegistered

  /** The body of a successful guess reply. */
  datatype Reply = Reply(name: string, colors: map<Field, Signal>, isCorrect: bool)

  class GameState {
    /** NFC and lower-case, as the name normalization uses them. */
    const lib: TextLib
    /** PLAYERS: the roster, read once and never changed. */
    const players: seq<Player>
    /** NAME2IDX: exact name to roster index. */
    const nameIdx: map<string, nat>
    /** NORMNAME2IDX: normalized name to roster index. */
    const normIdx: map<string, nat>
    /** CURRENT_ANSWER_IDX: None until the first draw. */
    var answerIdx: Option<nat>

    ghost predicate Valid()
      reads this
    {
      && nameIdx == IndexMap(Names(players))
      && normIdx == IndexMap(NormNames(lib, players))
      && (answerIdx.Some? ==> answerIdx.value < |players|)
    }

    /** Module start-up: build both dictionaries; no answer drawn yet. */
    constructor (lib: TextLib, players: seq<Player>)
      ensures Valid()
      ensures this.lib == lib && this.players == players && answerIdx == None
    {
      this.lib := lib;
      this.players := players;
      var byName := BuildIndex(Names(players));
      var byNorm := BuildIndex(NormNames(lib, players));
      nameIdx := byName;
      normIdx := byNorm;
      answerIdx := None;
    }

    /**
     * `reset_answer`: draw a fresh answer index, here the caller-supplied
     * `r`; an empty roster leaves no answer.
     */
    method ResetAnswer(r: nat)
      requires Valid()
      requires |players| > 0 ==> r < |players|
      modifies this
      ensures Valid()
      ensures answerIdx == if |players| > 0 then Some(r) else None
    {
      if |players| > 0 {
        answerIdx := Some(r);
      } else {
        answerIdx := None;
      }
    }

    /**
     * `answer_player`: draw only when no answer is held, then return the
     * answer. A held answer is returned again and the state is unchanged.
     */
    method AnswerPlayer(r: nat) returns (a: Player)
      requires Valid()
      requires r < |players|
      modifies this
      ensures Valid()
      ensures old(answerIdx).Some? ==> answerIdx == old(answerIdx)
      ensures old(answerIdx).None? ==> answerIdx == Some(r)
      ensures answerIdx.Some? && a == players[answerIdx.value]
    {
      if answerIdx.None? {
        ResetAnswer(r);
      }
      a := players[answerIdx.value];
    }

    /**
     * `NAME2IDX.get(name) or NORMNAME2IDX.get(normalize_name(name))` over
     * this roster: the index found, if any, belongs to a player with the
     * exact or the normalized name; none is found exactly when no
     * normalized roster name matches.
     */
    method FindIndex(raw: string) returns (idx: Option<nat>)
      requires Valid()
      ensures idx == Resolve(lib, players, raw)
      ensures idx.Some? ==>
        idx.value < |players| &&
        (players[idx.value].name == raw || Normalize(lib, players[idx.value].name) == Normalize(lib, raw))
      ensures idx.None? <==>
        forall i :: 0 <= i < |players| ==> Normalize(lib, players[i].name) != Normalize(lib, raw)
    {
      idx := Lookup(nameIdx, normIdx, lib, raw);
      ResolveSound(lib, players, raw);
      ResolveNone(lib, players, raw);
    }

    /** The lookup of the player-info handler: the record, or not found. */
    method PlayerInfo(raw: string) returns (p: Option<Player>)
      requires Valid()
      ensures p == match Resolve(lib, players, raw)
                   case Some(i) => if i < |players| then Some(players[i]) else None
                   case None => None
      ensures p.Some? ==>
        p.value in players &&
        (p.value.name == raw || Normalize(lib, p.value.name) == Normalize(lib, raw))
      ensures p.None? <==>
        forall i :: 0 <= i < |players| ==> Normalize(lib, players[i].name) != Normalize(lib, raw)
    {
      var idx := FindIndex(raw);
      if idx.Some? {
        p := Some(players[idx.value]);
      } else {
        p := None;
      }
    }

    /**
     * The guess handler after request parsing: resolve the typed name,
     * fetch the answer (drawing `r` if none is held) and score the guess.
     * An unknown name is rejected before the answer is touched.
     */
    method Guess(raw: string, r: nat) returns (res: Result<Reply, GuessError>)
      requires Valid()
      requires |players| > 0 ==> r < |players|
      modifies this
      ensures Valid()
      ensures res.Err? <==> Resolve(lib, players, raw).None?
      ensures res.Err? ==> res.error == NotRegistered && answerIdx == old(answerIdx)
      ensures res.Ok? ==>
        && Resolve(lib, players, raw).Some? && Resolve(lib, players, raw).value < |players|
        && answerIdx == (if old(answerIdx).Some? then old(answerIdx) else Some(r))
        && answerIdx.Some? && answerIdx.value < |players|
        && var g, a := players[Resolve(lib, players, raw).value], players[answerIdx.value];
           res.value == Reply(g.name, Colors(g, a), IsCorrect(g, a))
      ensures res.Ok? && res.value.isCorrect ==>
        forall f :: f in res.value.colors ==> res.value.colors[f] == Green
    {
      var idx := FindIndex(raw);
      if idx.None? {
        return Err(NotRegistered);
      }
      var g := players[idx.value];
      var a := AnswerPlayer(r);
      var colors := CompareFields(g, a);
      res := Ok(Reply(g.name, colors, g.name == a.name));
    }
  }
}
