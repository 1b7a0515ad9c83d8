/**
 * Character classes and string helpers shared by the backend (Python `str`
 * methods) and the frontend (JavaScript `String.prototype.trim`).
 */
module Text {

  /** Python's `str.isspace()`: the characters `str.strip()` removes. */
  predicate IsPySpace(c: char)
  {
    || c == ' '
    || ('\t' <= c <= '\r')
    || ('\U{1C}' <= c <= '\U{1F}')
    || c == '\U{85}' || c == '\U{A0}' || c == '\U{1680}'
    || ('\U{2000}' <= c <= '\U{200A}')
    || c == '\U{2028}' || c == '\U{2029}' || c == '\U{202F}' || c == '\U{205F}' || c == '\U{3000}'
  }

  /** JavaScript's WhiteSpace and LineTerminator: the characters `trim()` removes. */
  predicate IsJsSpace(c: char)
  {
    || c == ' '
    || ('\t' <= c <= '\r')
    || c == '\U{A0}' || c == '\U{1680}'
    || ('\U{2000}' <= c <= '\U{200A}')
    || c == '\U{2028}' || c == '\U{2029}' || c == '\U{202F}' || c == '\U{205F}' || c == '\U{3000}'
    || c == '\U{FEFF}'
  }

  /** Whose whitespace to strip: Python's `str.strip()` or JavaScript's `trim()`. */
  datatype Spaces = Python | JavaScript

  predicate IsSpace(k: Spaces, c: char)
  {
    if k.Python? then IsPySpace(c) else IsJsSpace(c)
  }

  /** Drops the trailing whitespace of `s`. */
  function DropTrailing(s: string, k: Spaces): (r: string)
    ensures |r| <= |s| && r == s[..|r|]
    ensures r != [] ==> !IsSpace(k, r[|r| - 1])
    ensures forall i :: |r| <= i < |s| ==> IsSpace(k, s[i])
  {
    if s != [] && IsSpace(k, s[|s| - 1]) then DropTrailing(s[..|s| - 1], k) else s
  }

  /**
   * Removes the surrounding whitespace from both ends: the leading
   * whitespace one character at a time, then the trailing whitespace.
   */
  function StripBy(s: string, k: Spaces): (r: string)
    ensures |r| <= |s|
    ensures r != [] ==> !IsSpace(k, r[0]) && !IsSpace(k, r[|r| - 1])
    ensures r == [] <==> forall i :: 0 <= i < |s| ==> IsSpace(k, s[i])
  {
    if s != [] && IsSpace(k, s[0]) then
      var r := StripBy(s[1..], k);
      assert forall i :: 1 <= i < |s| ==> s[i] == s[1..][i - 1];
      r
    else
      var r := DropTrailing(s, k);
      assert r != [] ==> r[0] == s[0];
      r
  }

  /**
   * What stripping removes: the result is a slice of `s` with nothing but
   * whitespace before it and after it.
   */
  lemma {:induction false} StripBySlice(s: string, k: Spaces)
    ensures exists i, j :: 0 <= i <= j <= |s| && StripBy(s, k) == s[i..j] && SpacesOutside(s, i, j, k)
    decreases |s|
  {
    if s != [] && IsSpace(k, s[0]) {
      StripBySlice(s[1..], k);
      var i, j :| 0 <= i <= j <= |s| - 1 && StripBy(s[1..], k) == s[1..][i..j] && SpacesOutside(s[1..], i, j, k);
      TailSlice(s, i, j);
      SpacesOutsideTail(s, i, j, k);
    } else {
      assert SpacesOutside(s, 0, |StripBy(s, k)|, k);
    }
  }

  /** Every character of `s` before index `i` and from index `j` on is whitespace. */
  predicate SpacesOutside(s: string, i: int, j: int, k: Spaces)
    requires 0 <= i <= j <= |s|
  {
    && (forall m :: 0 <= m < i ==> IsSpace(k, s[m]))
    && (forall m :: j <= m < |s| ==> IsSpace(k, s[m]))
  }

  lemma SpacesOutsideTail(s: string, i: int, j: int, k: Spaces)
    requires 0 <= i <= j <= |s| - 1 && IsSpace(k, s[0]) && SpacesOutside(s[1..], i, j, k)
    ensures SpacesOutside(s, i + 1, j + 1, k)
  {
    assert forall m :: 1 <= m < |s| ==> s[m] == s[1..][m - 1];
  }

  lemma TailSlice(s: string, i: int, j: int)
    requires 0 <= i <= j <= |s| - 1
    ensures s[1..][i..j] == s[i + 1..j + 1]
  {
  }

  /** Python's `str.strip()` with no argument. */
  function Strip(s: string): string
  {
    StripBy(s, Python)
  }

  /** JavaScript's `String.prototype.trim()`. */
  function Trim(s: string): string
  {
    StripBy(s, JavaScript)
  }

  /** Stripping is idempotent: a stripped string has nothing left to strip. */
  lemma StripIdempotent(s: string)
    ensures Strip(Strip(s)) == Strip(s)
  {
    var r := Strip(s);
    if r != [] {
      assert DropTrailing(r, Python) == r;
    }
  }

  predicate IsAsciiUpper(c: char) { 'A' <= c <= 'Z' }

  predicate IsAsciiLower(c: char) { 'a' <= c <= 'z' }

  predicate IsDigit(c: char) { '0' <= c <= '9' }

  function DigitValue(c: char): (d: int)
    requires IsDigit(c)
    ensures 0 <= d <= 9
  {
    c as int - '0' as int
  }

  function DigitChar(d: int): (c: char)
    requires 0 <= d <= 9
    ensures IsDigit(c) && DigitValue(c) == d
  {
    ('0' as int + d) as char
  }

  /** Lower-cases an ASCII capital and leaves every other character alone. */
  function LowerChar(c: char): (r: char)
    ensures !IsAsciiUpper(r)
    ensures IsAsciiUpper(c) ==> IsAsciiLower(r) && r as int == c as int + 32
    ensures !IsAsciiUpper(c) ==> r == c
  {
    if IsAsciiUpper(c) then (c as int + 32) as char else c
  }

  /** Upper-cases an ASCII small letter and leaves every other character alone. */
  function UpperChar(c: char): (r: char)
    ensures IsAsciiLower(c) ==> IsAsciiUpper(r) && LowerChar(r) == c
    ensures !IsAsciiLower(c) ==> r == c
  {
    if IsAsciiLower(c) then (c as int - 32) as char else c
  }

  /**
   * Lower-cases the ASCII capitals of `s`: none is left, and a string
   * without one comes back unchanged, so lowering twice is lowering once.
   */
  function LowerAscii(s: string): (r: string)
    ensures |r| == |s|
    ensures forall i :: 0 <= i < |r| ==> !IsAsciiUpper(r[i])
    ensures (forall i :: 0 <= i < |s| ==> !IsAsciiUpper(s[i])) ==> r == s
    ensures forall i :: 0 <= i < |s| ==> r[i] == LowerChar(s[i])
  {
    seq(|s|, i requires 0 <= i < |s| => LowerChar(s[i]))
  }

  /** `needle` occurs in `hay` as a contiguous substring. */
  function Contains(hay: string, needle: string): (r: bool)
    ensures r <==> exists i :: 0 <= i <= |hay| && needle <= hay[i..]
  {
    if needle <= hay then assert hay[0..] == hay; true
    else if hay == [] then false
    else
      var r := Contains(hay[1..], needle);
      assert forall i :: 1 <= i <= |hay| ==> hay[i..] == hay[1..][i - 1..];
      assert r ==> exists i :: 0 <= i <= |hay| && needle <= hay[i..] by {
        if r {
          var j :| 0 <= j <= |hay[1..]| && needle <= hay[1..][j..];
          assert hay[1..][j..] == hay[j + 1..];
        }
      }
      r
  }

  /** Lexicographic order on code points (the database's ORDER BY under a binary collation). */
  predicate LexLessEq(a: string, b: string)
  {
    if a == [] then true
    else if b == [] then false
    else if a[0] != b[0] then a[0] < b[0]
    else LexLessEq(a[1..], b[1..])
  }

  lemma {:induction false} LexTotal(a: string, b: string)
    ensures LexLessEq(a, b) || LexLessEq(b, a)
  {
    if a != [] && b != [] && a[0] == b[0] {
      LexTotal(a[1..], b[1..]);
    }
  }

  lemma {:induction false} LexTransitive(a: string, b: string, c: string)
    requires LexLessEq(a, b) && LexLessEq(b, c)
    ensures LexLessEq(a, c)
  {
    if a != [] && b != [] && c != [] && a[0] == b[0] && b[0] == c[0] {
      LexTransitive(a[1..], b[1..], c[1..]);
    }
  }
}
