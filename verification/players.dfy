/**
 * The roster and the name resolver: the player record, the two
 * name-to-index dictionaries and the lookup that turns a typed name
 * into a roster index.
 */
module Players {
  import opened Wrappers
  import opened Text

  /**
   * One roster row. The loader fills in every one of these eleven
   * columns (an absent column becomes the empty string) and trims
   * every value.
   */
  datatype Player = Player(
    name: string,
    team: string,
    number: string,
    position: string,
    heightCm: string,
    birthYear: string,
    playerType: string,
    draftYear: string,
    draftType: string,
    draftRound: string,
    draftOverall: string)

  /** The exact names of the roster, in roster order. */
  function Names(players: seq<Player>): seq<string> {
    seq(|players|, i requires 0 <= i < |players| => players[i].name)
  }

  /** The normalized names of the roster, in roster order. */
  function NormNames(lib: TextLib, players: seq<Player>): seq<string> {
    seq(|players|, i requires 0 <= i < |players| => Normalize(lib, players[i].name))
  }

  // ---------------------------------------------------------------------
  // {key(p): i for i, p in enumerate(PLAYERS)}
  // ---------------------------------------------------------------------

  /**
   * The dictionary a comprehension builds by inserting `keys[i] -> i`
   * for i = 0, 1, ...: a later insertion overwrites an earlier one.
   */
  function IndexMap(keys: seq<string>): map<string, nat> {
    if keys == [] then map[] else IndexMap(keys[..|keys| - 1])[keys[|keys| - 1] := |keys| - 1]
  }

  /** Builds the dictionary by overwriting insertion in index order. */
  method BuildIndex(keys: seq<string>) returns (m: map<string, nat>)
    ensures m == IndexMap(keys)
  {
    m := map[];
    var i := 0;
    while i < |keys|
      invariant 0 <= i <= |keys|
      invariant m == IndexMap(keys[..i])
    {
      assert keys[..i + 1][..i] == keys[..i];
      m := m[keys[i] := i];
      i := i + 1;
    }
    assert keys[..|keys|] == keys;
  }

  /**
   * The dictionary holds exactly the keys of the sequence, and sends each
   * key to the LAST index carrying it.
   */
  lemma {:induction false} IndexMapLast(keys: seq<string>, k: string)
    ensures k in IndexMap(keys) <==> k in keys
    ensures k in IndexMap(keys) ==>
      var i := IndexMap(keys)[k];
      i < |keys| && keys[i] == k && forall j :: i < j < |keys| ==> keys[j] != k
  {
    if keys != [] {
      var init := keys[..|keys| - 1];
      IndexMapLast(init, k);
      assert keys == init + [keys[|keys| - 1]];
    }
  }

  // ---------------------------------------------------------------------
  // NAME2IDX.get(raw) or NORMNAME2IDX.get(normalize_name(raw))
  // ---------------------------------------------------------------------

  /**
   * The lookup expression of the guess and player-info handlers. Python's
   * `or` treats index 0 as false, so an exact hit on index 0 falls
   * through to the normalized dictionary.
   */
  function Lookup(exact: map<string, nat>, norm: map<string, nat>, lib: TextLib, raw: string): Option<nat> {
    if raw in exact && exact[raw] != 0 then Some(exact[raw])
    else if Normalize(lib, raw) in norm then Some(norm[Normalize(lib, raw)])
    else None
  }

  /** The lookup over the dictionaries built from a roster. */
  function Resolve(lib: TextLib, players: seq<Player>, raw: string): Option<nat> {
    Lookup(IndexMap(Names(players)), IndexMap(NormNames(lib, players)), lib, raw)
  }

  /**
   * A successful lookup gives a roster index whose player carries the
   * typed name exactly, or whose normalized name equals the normalized
   * typed name.
   */
  lemma ResolveSound(lib: TextLib, players: seq<Player>, raw: string)
    ensures var r := Resolve(lib, players, raw);
      r.Some? ==>
        r.value < |players| &&
        (players[r.value].name == raw || Normalize(lib, players[r.value].name) == Normalize(lib, raw))
  {
    IndexMapLast(Names(players), raw);
    IndexMapLast(NormNames(lib, players), Normalize(lib, raw));
  }

  /**
   * The lookup fails ("not registered") exactly when no roster name
   * normalizes to the normalized typed name.
   */
  lemma ResolveNone(lib: TextLib, players: seq<Player>, raw: string)
    ensures Resolve(lib, players, raw).None? <==>
      forall i :: 0 <= i < |players| ==> Normalize(lib, players[i].name) != Normalize(lib, raw)
  {
    var names, norms := Names(players), NormNames(lib, players);
    IndexMapLast(names, raw);
    IndexMapLast(norms, Normalize(lib, raw));
    if Resolve(lib, players, raw).None? {
      forall i | 0 <= i < |players|
        ensures Normalize(lib, players[i].name) != Normalize(lib, raw)
      {
        assert norms[i] == Normalize(lib, players[i].name);
      }
    } else if raw in IndexMap(names) {
      var i := IndexMap(names)[raw];
      assert norms[i] == Normalize(lib, raw);
    }
  }

  /**
   * An exact name whose last roster index is not 0 resolves to that last
   * index: later roster rows shadow earlier ones with the same name.
   */
  lemma ResolveExactLast(lib: TextLib, players: seq<Player>, raw: string, i: nat)
    requires 0 < i < |players| && players[i].name == raw
    requires forall j :: i < j < |players| ==> players[j].name != raw
    ensures Resolve(lib, players, raw) == Some(i)
  {
    var names := Names(players);
    IndexMapLast(names, raw);
    assert names[i] == raw;
  }

  /**
   * Only player 0 carries the exact name, yet the lookup answers with the
   * LAST player whose normalized name matches, which may be another one.
   */
  lemma ResolveIndexZeroFallsThrough(lib: TextLib, players: seq<Player>, raw: string)
    requires |players| > 0 && players[0].name == raw
    requires forall j :: 0 < j < |players| ==> players[j].name != raw
    ensures var r := Resolve(lib, players, raw);
      r.Some? && r.value < |players| &&
      Normalize(lib, players[r.value].name) == Normalize(lib, raw) &&
      forall j :: r.value < j < |players| ==> Normalize(lib, players[j].name) != Normalize(lib, raw)
  {
    var names, norms := Names(players), NormNames(lib, players);
    IndexMapLast(names, raw);
    IndexMapLast(norms, Normalize(lib, raw));
    assert names[0] == raw;
    assert norms[0] == Normalize(lib, raw);
    var r := IndexMap(norms)[Normalize(lib, raw)];
    forall j | r < j < |players|
      ensures Normalize(lib, players[j].name) != Normalize(lib, raw)
    {
      assert norms[j] != Normalize(lib, raw);
    }
  }

  /**
   * A concrete roster showing the fall-through: "Kim A" at index 0 and
   * "KimA" at index 1, with a case mapping that keeps the text as it is.
   * Typing "Kim A" picks player 1.
   */
  lemma ResolveIndexZeroExample()
    ensures var lib := TextLib(s => s, s => s);
      var p0 := Player("Kim A", "", "", "", "", "", "", "", "", "", "");
      var p1 := Player("KimA", "", "", "", "", "", "", "", "", "", "");
      Resolve(lib, [p0, p1], "Kim A") == Some(1)
  {
  }
}
