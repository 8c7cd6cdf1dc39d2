/**
 * Text helpers used by the scoring engine and the name resolver:
 * Python's `int(s)` on a string, `str.upper()` as used by `pos_group`,
 * and `normalize_name`.
 */
module Text {
  import opened Wrappers

  /**
   * The library behaviour that the model cannot see: Unicode NFC
   * composition (`unicodedata.normalize("NFC", s)`) and `str.lower()`.
   * Both are supplied from outside as total functions on strings.
   */
  datatype TextLib = TextLib(nfc: string -> string, lower: string -> string)

  /** `str.lower()` never turns a space-free string into one holding `' '`. */
  ghost predicate LowerAddsNoSpace(lib: TextLib) {
    forall s: string :: ' ' !in s ==> ' ' !in lib.lower(s)
  }

  // ---------------------------------------------------------------------
  // normalize_name
  // ---------------------------------------------------------------------

  /** `s.replace(" ", "")`: drops every U+0020 and keeps everything else in order. */
  function RemoveSpaces(s: string): (r: string)
    ensures |r| <= |s|
    ensures forall c :: c in r <==> c in s && c != ' '
    ensures ' ' !in s ==> r == s
  {
    if s == [] then []
    else if s[0] == ' ' then RemoveSpaces(s[1..])
    else [s[0]] + RemoveSpaces(s[1..])
  }

  /** `normalize_name`: empty stays empty, otherwise NFC, drop spaces, lower-case. */
  function Normalize(lib: TextLib, s: string): string {
    if s == [] then [] else lib.lower(RemoveSpaces(lib.nfc(s)))
  }

  /** A normalized name never holds a space, and the empty name normalizes to itself. */
  lemma NormalizeNoSpace(lib: TextLib, s: string)
    requires LowerAddsNoSpace(lib)
    ensures ' ' !in Normalize(lib, s)
    ensures s == [] ==> Normalize(lib, s) == []
  {
  }

  /**
   * Dropping spaces distributes over concatenation; with the space-free
   * case and `RemoveSpaces(" ") == ""` this fixes the result completely,
   * order and multiplicity included.
   */
  lemma {:induction false} RemoveSpacesConcat(a: string, b: string)
    ensures RemoveSpaces(a + b) == RemoveSpaces(a) + RemoveSpaces(b)
  {
    if a != [] {
      assert (a + b)[1..] == a[1..] + b;
      RemoveSpacesConcat(a[1..], b);
    } else {
      assert a + b == b;
    }
  }

  // ---------------------------------------------------------------------
  // str.upper() on ASCII
  // ---------------------------------------------------------------------

  /** Upper-case of one character; only the ASCII letters a-z change. */
  function UpperChar(c: char): char {
    if 'a' <= c <= 'z' then (c as int - 32) as char else c
  }

  /** `s.upper()`, character by character. */
  function Upper(s: string): (r: string)
    ensures |r| == |s| && forall i :: 0 <= i < |s| ==> r[i] == UpperChar(s[i])
  {
    if s == [] then [] else [UpperChar(s[0])] + Upper(s[1..])
  }

  /** An upper-case ASCII letter occurs in `Upper(s)` iff it or its lower-case form occurs in `s`. */
  lemma {:induction false} UpperHas(s: string, c: char)
    requires 'A' <= c <= 'Z'
    ensures c in Upper(s) <==> c in s || (c as int + 32) as char in s
  {
    if s != [] {
      UpperHas(s[1..], c);
      assert Upper(s) == [UpperChar(s[0])] + Upper(s[1..]);
      assert s == [s[0]] + s[1..];
    }
  }

  // ---------------------------------------------------------------------
  // int(s)
  // ---------------------------------------------------------------------

  predicate IsDigit(c: char) {
    '0' <= c <= '9'
  }

  predicate AllDigits(s: string) {
    forall i :: 0 <= i < |s| ==> IsDigit(s[i])
  }

  /** Decimal value of a digit string, most significant digit first. */
  function DigitsValue(s: string): nat
    requires AllDigits(s)
  {
    if s == [] then 0 else DigitsValue(s[..|s| - 1]) * 10 + (s[|s| - 1] as int - '0' as int)
  }

  /** One or more decimal digits, or nothing. */
  function ParseNat(s: string): Option<nat> {
    if s != [] && AllDigits(s) then Some(DigitsValue(s)) else None
  }

  /**
   * Python's `int(s)` on a trimmed string: an optional `+` or `-`
   * followed by one or more decimal digits; anything else is the
   * `ValueError` the source swallows, here `None`. Digit strings of any
   * length are accepted: Python's limit on the number of digits is not
   * modelled.
   */
  function ParseInt(s: string): (r: Option<int>)
    ensures s == [] ==> r == None
    ensures r.Some? && !IsDigit(s[0]) ==> |s| >= 2 && (s[0] == '+' || s[0] == '-')
  {
    if |s| > 0 && (s[0] == '+' || s[0] == '-') then
      match ParseNat(s[1..])
      case None => None
      case Some(n) => Some(if s[0] == '-' then -(n as int) else n as int)
    else
      match ParseNat(s)
      case None => None
      case Some(n) => Some(n)
  }

  /**
   * The texts `ParseInt` accepts are exactly an optional sign followed by
   * one or more decimal digits, and the value is the signed digit value.
   */
  lemma ParseIntSyntax(s: string)
    ensures ParseInt(s).Some? <==>
      (s != [] && AllDigits(s)) || (|s| >= 2 && (s[0] == '+' || s[0] == '-') && AllDigits(s[1..]))
    ensures ParseInt(s).Some? && IsDigit(s[0]) ==> ParseInt(s).value == DigitsValue(s)
    ensures ParseInt(s).Some? && !IsDigit(s[0]) ==>
      ParseInt(s).value == if s[0] == '-' then -(DigitsValue(s[1..]) as int) else DigitsValue(s[1..])
  {
  }

  /** Texts with noise, a bare sign or inner space fail; a plus sign is accepted. */
  lemma ParseIntExamples()
    ensures ParseInt("+7") == Some(7) && ParseInt("-12") == Some(-12)
    ensures ParseInt("12a") == None && ParseInt("1 2") == None && ParseInt("+") == None && ParseInt("") == None
  {
  }

  /** Decimal rendering, the inverse of `ParseInt` on canonical text. */
  function DigitChar(d: nat): char
    requires d < 10
  {
    ('0' as int + d) as char
  }

  function NatToString(n: nat): string {
    if n < 10 then [DigitChar(n)] else NatToString(n / 10) + [DigitChar(n % 10)]
  }

  function IntToString(n: int): string {
    if n < 0 then "-" + NatToString(-n) else NatToString(n)
  }

  lemma {:induction false} NatToStringDigits(n: nat)
    ensures NatToString(n) != [] && AllDigits(NatToString(n))
    ensures DigitsValue(NatToString(n)) == n
  {
    if n >= 10 {
      NatToStringDigits(n / 10);
      var s := NatToString(n);
      assert s[..|s| - 1] == NatToString(n / 10);
    }
  }

  /** Round trip: parsing the decimal rendering of any integer gives it back. */
  lemma ParseIntRoundTrip(n: int)
    ensures ParseInt(IntToString(n)) == Some(n)
  {
    var s := IntToString(n);
    if n < 0 {
      NatToStringDigits(-n);
      assert s[0] == '-' && s[1..] == NatToString(-n);
      assert ParseNat(s[1..]) == Some(-n);
    } else {
      NatToStringDigits(n);
      assert IsDigit(s[0]);
      assert ParseNat(s) == Some(n);
    }
  }

  /** A leading zero does not change a digit string's value. */
  lemma {:induction false} DigitsLeadingZero(s: string)
    requires AllDigits(s)
    ensures AllDigits(['0'] + s) && DigitsValue(['0'] + s) == DigitsValue(s)
  {
    if s != [] {
      var t := ['0'] + s;
      assert t[..|t| - 1] == ['0'] + s[..|s| - 1];
      DigitsLeadingZero(s[..|s| - 1]);
    }
  }

  /** In this model, a leading zero leaves the parsed value of a non-empty digit string unchanged. */
  lemma ParseIntLeadingZero(s: string)
    requires s != [] && AllDigits(s)
    ensures ParseInt(['0'] + s) == ParseInt(s) && ParseInt(s).Some?
  {
    DigitsLeadingZero(s);
  }
}
