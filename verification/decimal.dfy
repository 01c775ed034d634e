/** Base-10 rendering and parsing of unsigned 64-bit integers, as the
    handlers use strconv.FormatUint(page, 10) for the page parameter and
    strconv.ParseUint(s, 10, 64) for the totalResults field. */
module Decimal {
  import opened Wrappers

  const MaxUint64: int := 0xFFFF_FFFF_FFFF_FFFF

  /** Go's uint64. */
  type uint64 = x: int | 0 <= x <= MaxUint64

  predicate IsDigit(c: char) {
    '0' <= c <= '9'
  }

  predicate AllDigits(s: string) {
    forall i :: 0 <= i < |s| ==> IsDigit(s[i])
  }

  function DigitValue(c: char): nat
    requires IsDigit(c)
  {
    c as int - '0' as int
  }

  function DigitChar(d: nat): (c: char)
    requires d < 10
    ensures IsDigit(c) && DigitValue(c) == d
  {
    (d + '0' as int) as char
  }

  /** The unbounded value of the digits `s`, read left to right on top of
      the accumulated value `n`. */
  function Fold(n: nat, s: string): nat
    requires AllDigits(s)
    decreases |s|
  {
    if s == [] then n else Fold(10 * n + DigitValue(s[0]), s[1..])
  }

  /** The unbounded value of a digit string. */
  function Value(s: string): nat
    requires AllDigits(s)
  {
    Fold(0, s)
  }

  /** A canonical rendering: digits only, and no leading zero unless the
      whole string is "0". */
  predicate Canonical(s: string) {
    && |s| > 0
    && AllDigits(s)
    && (s[0] == '0' ==> |s| == 1)
  }

  /** Reading more digits never makes the accumulated value smaller. */
  lemma {:induction false} FoldAtLeast(n: nat, s: string)
    requires AllDigits(s)
    ensures Fold(n, s) >= n
    decreases |s|
  {
    if s != [] {
      FoldAtLeast(10 * n + DigitValue(s[0]), s[1..]);
    }
  }

  /** Appending one digit multiplies the value read so far by ten. */
  lemma {:induction false} FoldSnoc(n: nat, s: string, c: char)
    requires AllDigits(s) && IsDigit(c)
    ensures AllDigits(s + [c])
    ensures Fold(n, s + [c]) == 10 * Fold(n, s) + DigitValue(c)
    decreases |s|
  {
    if s == [] {
      assert s + [c] == [c];
      assert [c][1..] == [];
    } else {
      assert (s + [c])[0] == s[0];
      assert (s + [c])[1..] == s[1..] + [c];
      FoldSnoc(10 * n + DigitValue(s[0]), s[1..], c);
    }
  }

  /** The digit loop of strconv.ParseUint in base 10: every byte must be a
      digit, and the loop gives up as soon as the accumulated value no
      longer fits in 64 bits (the library's range error; both kinds of
      error are a failure to parse here). */
  function Accumulate(n: uint64, s: string): (r: Option<uint64>)
    ensures r.Some? <==> AllDigits(s) && Fold(n, s) <= MaxUint64
    ensures r.Some? ==> r.value == Fold(n, s)
    decreases |s|
  {
    if s == [] then Some(n)
    else if !IsDigit(s[0]) then None
    else
      var next := 10 * n + DigitValue(s[0]);
      if next > MaxUint64 then
        assert AllDigits(s) ==> Fold(n, s) == Fold(next, s[1..]);
        if AllDigits(s[1..]) then FoldAtLeast(next, s[1..]); None else None
      else
        assert AllDigits(s) <==> AllDigits(s[1..]);
        Accumulate(next, s[1..])
  }

  /** strconv.ParseUint(s, 10, 64): the empty string is a syntax error;
      otherwise every character must be an ASCII digit (no sign, no
      underscore, leading zeros allowed) and the value must fit in 64 bits. */
  function ParseUint(s: string): (r: Option<uint64>)
    ensures r.Some? <==> |s| > 0 && AllDigits(s) && Value(s) <= MaxUint64
    ensures r.Some? ==> r.value == Value(s)
  {
    if s == [] then None else Accumulate(0, s)
  }

  /** strconv.FormatUint(n, 10): the shortest decimal rendering. */
  function FormatUint(n: nat): (s: string)
    ensures Canonical(s)
    ensures Value(s) == n
    decreases n
  {
    if n < 10 then
      assert Fold(0, [DigitChar(n)]) == Fold(n, []);
      [DigitChar(n)]
    else
      var prefix := FormatUint(n / 10);
      var last := DigitChar(n % 10);
      FoldSnoc(0, prefix, last);
      assert (prefix + [last])[0] == prefix[0];
      prefix + [last]
  }

  /** Rendering a uint64 and parsing it back gives the same number. */
  lemma ParseFormatRoundTrip(n: uint64)
    ensures ParseUint(FormatUint(n)) == Some(n)
  {
  }

  /** Conversely, a canonical digit string that parses is the rendering of
      its own value. */
  lemma {:induction false} FormatOfCanonical(s: string)
    requires Canonical(s)
    ensures FormatUint(Value(s)) == s
    decreases |s|
  {
    if |s| == 1 {
      assert s[1..] == [];
      assert Value(s) == Fold(DigitValue(s[0]), s[1..]);
    } else {
      var t, c := s[..|s| - 1], s[|s| - 1];
      assert s == t + [c];
      assert Canonical(t) by {
        assert t[0] == s[0];
        assert forall i :: 0 <= i < |t| ==> t[i] == s[i];
      }
      FoldSnoc(0, t, c);
      assert t == [t[0]] + t[1..];
      FoldAtLeast(DigitValue(t[0]), t[1..]);
      assert Value(t) >= 1;
      FormatOfCanonical(t);
    }
  }

  /** Leading zeros are accepted: "007" parses as 7, so the parsed number
      does not determine the string it came from. */
  lemma LeadingZerosParse()
    ensures ParseUint("007") == Some(7)
  {
    assert Value("007") == Fold(0, "07") == Fold(0, "7") == Fold(7, "");
  }
}
