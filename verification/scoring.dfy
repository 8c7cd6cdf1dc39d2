/**
 * The scoring engine: six per-attribute signals between a guessed player
 * and the answer, each green (match), yellow (near match) or black (no
 * match), with every signal forced to green when the two names agree.
 */
module Scoring {
  import opened Wrappers
  import opened Text
  import opened Players

  datatype Signal = Green | Yellow | Black

  /** The six keys of the comparison dictionary. */
  datatype Field = Team | Number | Position | HeightCm | PlayerType | Draft

  const AllFields: set<Field> := {Team, Number, Position, HeightCm, PlayerType, Draft}

  /** The keys in the order the override loop visits them. */
  const FieldOrder: seq<Field> := [Team, Number, Position, HeightCm, PlayerType, Draft]

  /** The position of a key in `FieldOrder`. */
  function FieldIndex(f: Field): (i: nat)
    ensures i < |FieldOrder| && FieldOrder[i] == f
  {
    match f
    case Team => 0
    case Number => 1
    case Position => 2
    case HeightCm => 3
    case PlayerType => 4
    case Draft => 5
  }

  function Abs(x: int): nat {
    if x < 0 then -x else x
  }

  // ---------------------------------------------------------------------
  // Helpers of compare_fields
  // ---------------------------------------------------------------------

  /** `within(v1, v2, d)`: the two integers are at most `d` apart. */
  function Within(v1: int, v2: int, d: int): bool {
    Abs(v1 - v2) <= d
  }

  /**
   * `height_tens_equal`: both texts parse as integers with the same
   * `// 10`. Python's floor division and Dafny's `/` agree for the
   * positive divisor 10, negative values included.
   */
  function HeightTensEqual(h1: string, h2: string): bool {
    match (ParseInt(h1), ParseInt(h2))
    case (Some(x), Some(y)) => x / 10 == y / 10
    case _ => false
  }

  /**
   * `pos_group`: "C" when the upper-cased text holds a C, else "F" when
   * it holds an F, else "G" (the empty text included).
   */
  function PosGroup(pos: string): (g: string)
    ensures g == "C" || g == "F" || g == "G"
    ensures g == "C" <==> 'C' in pos || 'c' in pos
    ensures g == "F" <==> !('C' in pos || 'c' in pos) && ('F' in pos || 'f' in pos)
  {
    UpperHas(pos, 'C');
    UpperHas(pos, 'F');
    var p := Upper(pos);
    if 'C' in p then "C"
    else if 'F' in p && 'G' in p then "F"
    else if 'F' in p then "F"
    else "G"
  }

  /** `draft_tuple`: year, type, round and overall pick. */
  function DraftTuple(p: Player): (string, string, string, string) {
    (p.draftYear, p.draftType, p.draftRound, p.draftOverall)
  }

  /** `draft_yellow`: same non-empty draft type and same non-empty round. */
  function DraftYellow(g: Player, a: Player): bool {
    if g.draftType == "" || a.draftType == "" || g.draftRound == "" || a.draftRound == "" then false
    else g.draftType == a.draftType && g.draftRound == a.draftRound
  }

  // ---------------------------------------------------------------------
  // One signal per attribute
  // ---------------------------------------------------------------------

  /** Team and player type: green on equal text, black otherwise, never yellow. */
  function ExactSignal(g: string, a: string): (s: Signal)
    ensures s != Yellow
    ensures s == Green <==> g == a
  {
    if g == a then Green else Black
  }

  /**
   * Jersey number: green when both parse to the same integer, yellow when
   * both parse and differ by 1 or 2, black otherwise (an empty or
   * non-numeric side included).
   */
  function NumberSignal(g: string, a: string): (s: Signal)
    ensures s == Green <==> ParseInt(g).Some? && ParseInt(a).Some? && ParseInt(g).value == ParseInt(a).value
    ensures s == Yellow <==> ParseInt(g).Some? && ParseInt(a).Some? && 0 < Abs(ParseInt(g).value - ParseInt(a).value) <= 2
    ensures ParseInt(g).None? || ParseInt(a).None? ==> s == Black
  {
    match (ParseInt(g), ParseInt(a))
    case (Some(gn), Some(an)) =>
      if gn == an then Green else if Within(gn, an, 2) then Yellow else Black
    case _ => Black
  }

  /**
   * Position: green when the guess is non-empty and textually equal to
   * the answer; otherwise yellow when both fall in the same letter group.
   */
  function PositionSignal(g: string, a: string): (s: Signal)
    ensures s == Green <==> g != "" && g == a
    ensures s == Yellow <==> (g == "" || g != a) && PosGroup(g) == PosGroup(a)
  {
    if g != "" && g == a then Green
    else if PosGroup(g) == PosGroup(a) then Yellow
    else Black
  }

  /**
   * Height: green when both texts are non-empty and equal; otherwise
   * yellow when both parse and fall in the same ten-centimetre bucket.
   */
  function HeightSignal(g: string, a: string): (s: Signal)
    ensures s == Green <==> g != "" && g == a
    ensures s == Yellow <==> (g == "" || g != a) && ParseInt(g).Some? && ParseInt(a).Some? &&
                             ParseInt(g).value / 10 == ParseInt(a).value / 10
    ensures s == Yellow ==> Abs(ParseInt(g).value - ParseInt(a).value) < 10
  {
    if g != "" && a != "" && g == a then Green
    else if HeightTensEqual(g, a) then Yellow
    else Black
  }

  /**
   * Draft: green when year, type, round and overall pick all agree;
   * otherwise yellow when type and round are non-empty and agree.
   */
  function DraftSignal(g: Player, a: Player): (s: Signal)
    ensures s == Green <==>
      g.draftYear == a.draftYear && g.draftType == a.draftType &&
      g.draftRound == a.draftRound && g.draftOverall == a.draftOverall
    ensures s == Yellow <==>
      s != Green && g.draftType != "" && g.draftRound != "" &&
      g.draftType == a.draftType && g.draftRound == a.draftRound
  {
    if DraftTuple(g) == DraftTuple(a) then Green
    else if DraftYellow(g, a) then Yellow
    else Black
  }

  /** The per-attribute rule before the same-name override. */
  function FieldSignal(g: Player, a: Player, f: Field): Signal {
    match f
    case Team => ExactSignal(g.team, a.team)
    case Number => NumberSignal(g.number, a.number)
    case Position => PositionSignal(g.position, a.position)
    case HeightCm => HeightSignal(g.heightCm, a.heightCm)
    case PlayerType => ExactSignal(g.playerType, a.playerType)
    case Draft => DraftSignal(g, a)
  }

  /** The dictionary `compare_fields` returns. */
  function Colors(g: Player, a: Player): (m: map<Field, Signal>)
    ensures m.Keys == AllFields
  {
    map f | f in AllFields :: if g.name == a.name then Green else FieldSignal(g, a, f)
  }

  /** `is_correct` of the guess reply. */
  predicate IsCorrect(g: Player, a: Player) {
    g.name == a.name
  }

  // ---------------------------------------------------------------------
  // compare_fields
  // ---------------------------------------------------------------------

  /**
   * Fills the dictionary attribute by attribute, then, when the names
   * agree, overwrites all six entries with green.
   */
  method CompareFields(g: Player, a: Player) returns (out: map<Field, Signal>)
    ensures out == Colors(g, a)
  {
    out := map[];
    out := out[Team := ExactSignal(g.team, a.team)];
    out := out[Number := NumberSignal(g.number, a.number)];
    out := out[Position := PositionSignal(g.position, a.position)];
    out := out[HeightCm := HeightSignal(g.heightCm, a.heightCm)];
    out := out[PlayerType := ExactSignal(g.playerType, a.playerType)];
    out := out[Draft := DraftSignal(g, a)];
    if g.name == a.name {
      var i := 0;
      while i < |FieldOrder|
        invariant 0 <= i <= |FieldOrder|
        invariant out.Keys == AllFields
        invariant forall j :: 0 <= j < i ==> out[FieldOrder[j]] == Green
      {
        out := out[FieldOrder[i] := Green];
        i := i + 1;
      }
      forall f | f in AllFields
        ensures out[f] == Green
      {
        assert f == FieldOrder[FieldIndex(f)];
      }
    } else {
      forall f | f in AllFields
        ensures out[f] == FieldSignal(g, a, f)
      {
        match f
        case Team =>
        case Number =>
        case Position =>
        case HeightCm =>
        case PlayerType =>
        case Draft =>
      }
    }
    ColorsPointwise(g, a, out);
  }

  /** A dictionary over the six keys that agrees with `Colors` key by key is `Colors`. */
  lemma ColorsPointwise(g: Player, a: Player, m: map<Field, Signal>)
    requires m.Keys == AllFields
    requires forall f :: f in AllFields ==> m[f] == if g.name == a.name then Green else FieldSignal(g, a, f)
    ensures m == Colors(g, a)
  {
  }

  // ---------------------------------------------------------------------
  // Properties
  // ---------------------------------------------------------------------

  /** Same name (a correct guess): every signal is green whatever the other fields hold. */
  lemma IdentityOverride(g: Player, a: Player)
    ensures IsCorrect(g, a) ==> forall f :: f in Colors(g, a) ==> Colors(g, a)[f] == Green
  {
  }

  /** Swapping guess and answer never changes the comparison. */
  lemma ColorsSymmetric(g: Player, a: Player)
    ensures Colors(g, a) == Colors(a, g)
  {
    forall f | f in AllFields
      ensures FieldSignal(g, a, f) == FieldSignal(a, g, f)
    {
      match f
      case Team =>
      case Number =>
      case Position =>
      case HeightCm =>
      case PlayerType =>
      case Draft =>
    }
    ColorsPointwise(a, g, Colors(g, a));
  }

  /** Padding a height with a leading zero loses the green but keeps the bucket: yellow. */
  lemma HeightLeadingZeroIsYellow(s: string)
    requires s != [] && AllDigits(s)
    ensures HeightSignal(['0'] + s, s) == Yellow
    ensures NumberSignal(['0'] + s, s) == Green
  {
    ParseIntLeadingZero(s);
    assert |['0'] + s| != |s|;
  }

  /** Heights in different ten-centimetre buckets are black unless textually equal. */
  lemma HeightBuckets(g: string, a: string)
    requires ParseInt(g).Some? && ParseInt(a).Some?
    requires ParseInt(g).value / 10 != ParseInt(a).value / 10
    ensures HeightSignal(g, a) == Black
  {
  }

  lemma NumberExamples()
    ensures NumberSignal("7", "9") == Yellow
    ensures NumberSignal("7", "10") == Black
    ensures NumberSignal("-1", "+1") == Yellow
    ensures NumberSignal("", "") == Black
  {
  }

  lemma HeightExamples()
    ensures HeightSignal("0200", "200") == Yellow
    ensures HeightSignal("198", "202") == Black
    ensures HeightSignal("198", "200") == Black
    ensures HeightSignal("", "") == Black
    ensures HeightSignal("n/a", "n/a") == Green
  {
    HeightLeadingZeroIsYellow("200");
    assert ['0'] + "200" == "0200";
  }

  lemma PositionExamples()
    ensures PositionSignal("", "") == Yellow
    ensures PositionSignal("G", "G") == Green
    ensures PositionSignal("F-C", "C") == Yellow
    ensures PositionSignal("g", "G") == Yellow
    ensures PositionSignal("G", "F") == Black
  {
  }

  /** Two players with every draft field empty get a green draft signal. */
  lemma EmptyDraftsAreGreen(g: Player, a: Player)
    requires g.draftYear == a.draftYear == "" && g.draftType == a.draftType == ""
    requires g.draftRound == a.draftRound == "" && g.draftOverall == a.draftOverall == ""
    ensures DraftSignal(g, a) == Green
  {
  }
}
