/**
 * Decimal text of integers: what Python's `f"{n}"` writes, and the reading
 * back that shows two different numbers never share a text.
 */
module Decimal {
  import opened Wrappers
  import opened Text

  predicate AllDigits(s: string)
  {
    forall i :: 0 <= i < |s| ==> IsDigit(s[i])
  }

  /** The digits of `n`, without leading zeros. */
  function Digits(n: nat): (r: string)
    ensures r != [] && AllDigits(r)
    decreases n
  {
    if n < 10 then [DigitChar(n)] else Digits(n / 10) + [DigitChar(n % 10)]
  }

  /** The number a string of decimal digits denotes. */
  function DigitsValue(s: string): nat
    requires AllDigits(s)
  {
    if s == [] then 0 else DigitsValue(s[..|s| - 1]) * 10 + DigitValue(s[|s| - 1])
  }

  /** Reading the digits of `n` gives `n` back. */
  lemma {:induction false} DigitsRoundTrip(n: nat)
    ensures DigitsValue(Digits(n)) == n
    decreases n
  {
    if n >= 10 {
      var r := Digits(n);
      assert r[..|r| - 1] == Digits(n / 10);
      DigitsRoundTrip(n / 10);
    }
  }

  /** `f"{n}"`: a minus sign before the digits of a negative number. */
  function IntText(n: int): (r: string)
    ensures r != []
  {
    if n < 0 then "-" + Digits(-n) else Digits(n)
  }

  /** The length of the longest run of digits at the start of `s`. */
  function DigitRun(s: string): (r: nat)
    ensures r <= |s| && AllDigits(s[..r])
    ensures r < |s| ==> !IsDigit(s[r])
  {
    if s == [] || !IsDigit(s[0]) then 0
    else
      var r := 1 + DigitRun(s[1..]);
      assert s[..r] == [s[0]] + s[1..][..r - 1];
      r
  }

  /** A run of digits followed by a non-digit is read up to its end. */
  lemma {:induction false} DigitRunOf(d: string, rest: string)
    requires AllDigits(d)
    requires rest == [] || !IsDigit(rest[0])
    ensures DigitRun(d + rest) == |d|
  {
    if d != [] {
      assert (d + rest)[1..] == d[1..] + rest;
      DigitRunOf(d[1..], rest);
    } else {
      assert d + rest == rest;
    }
  }

  /** Reads an optionally negative decimal number at the start of `s`, with what follows it. */
  function ReadInt(s: string): (r: Option<(int, string)>)
    ensures r.Some? ==> |r.value.1| < |s|
  {
    var neg := s != [] && s[0] == '-';
    var body := if neg then s[1..] else s;
    var n := DigitRun(body);
    if n == 0 then None
    else
      var v: int := DigitsValue(body[..n]);
      Some((if neg then -v else v, body[n..]))
  }

  /** The text of `n`, followed by anything that does not start with a digit, reads back as `n`. */
  lemma ReadIntText(n: int, rest: string)
    requires rest == [] || !IsDigit(rest[0])
    ensures ReadInt(IntText(n) + rest) == Some((n, rest))
  {
    var m := if n < 0 then -n else n;
    var d := Digits(m);
    DigitRunOf(d, rest);
    DigitsRoundTrip(m);
    assert (d + rest)[..|d|] == d && (d + rest)[|d|..] == rest;
    if n < 0 {
      assert IntText(n) + rest == "-" + (d + rest);
      assert ("-" + (d + rest))[1..] == d + rest;
    }
  }
}
