/**
 * `datetime.date` and the `datetime.strptime(s, "%Y-%m-%d")` parser the
 * controllers use, together with the ISO rendering (`YYYY-MM-DD`) that the
 * API returns for a stored date.
 *
 * CPython's strptime compiles "%Y-%m-%d" to a regular expression whose year
 * is exactly four digits, whose month is `1[0-2]|0[1-9]|[1-9]` and whose day
 * is `3[01]|[12]\d|0[1-9]|[1-9]| [1-9]`; the whole input must be consumed,
 * and the numbers must then form a real calendar date with 1 <= year <= 9999.
 */
module Dates {
  import opened Wrappers
  import opened Text

  datatype Date = Date(year: int, month: int, day: int)

  /** Gregorian leap years, as `datetime` uses. */
  predicate IsLeapYear(y: int)
  {
    y % 4 == 0 && (y % 100 != 0 || y % 400 == 0)
  }

  function DaysInMonth(y: int, m: int): (n: int)
    requires 1 <= m <= 12
    ensures 28 <= n <= 31
  {
    if m == 2 then (if IsLeapYear(y) then 29 else 28)
    else if m == 4 || m == 6 || m == 9 || m == 11 then 30
    else 31
  }

  /** The dates `datetime.date` can represent. */
  predicate ValidDate(d: Date)
  {
    && 1 <= d.year <= 9999
    && 1 <= d.month <= 12
    && 1 <= d.day <= DaysInMonth(d.year, d.month)
  }

  /** The text matched by `%m`, given that a `-` follows it. */
  function MonthToken(t: string): (r: Option<int>)
    ensures r.Some? ==> 1 <= r.value <= 12
  {
    if |t| == 1 && '1' <= t[0] <= '9' then Some(DigitValue(t[0]))
    else if |t| == 2 && t[0] == '1' && '0' <= t[1] <= '2' then Some(10 + DigitValue(t[1]))
    else if |t| == 2 && t[0] == '0' && '1' <= t[1] <= '9' then Some(DigitValue(t[1]))
    else None
  }

  /** The text matched by `%d` when it must reach the end of the input. */
  function DayToken(t: string): (r: Option<int>)
    ensures r.Some? ==> 1 <= r.value <= 31
  {
    if |t| == 2 && t[0] == '3' && (t[1] == '0' || t[1] == '1') then Some(30 + DigitValue(t[1]))
    else if |t| == 2 && (t[0] == '1' || t[0] == '2') && IsDigit(t[1]) then Some(10 * DigitValue(t[0]) + DigitValue(t[1]))
    else if |t| == 2 && t[0] == '0' && '1' <= t[1] <= '9' then Some(DigitValue(t[1]))
    else if |t| == 1 && '1' <= t[0] <= '9' then Some(DigitValue(t[0]))
    else if |t| == 2 && t[0] == ' ' && '1' <= t[1] <= '9' then Some(DigitValue(t[1]))
    else None
  }

  /** Index of the first occurrence of `c` in `s`. */
  function FirstIndexOf(s: string, c: char): (r: Option<nat>)
    ensures r.Some? ==> r.value < |s| && s[r.value] == c && c !in s[..r.value]
    ensures r.None? ==> c !in s
  {
    if s == [] then None
    else if s[0] == c then Some(0)
    else
      match FirstIndexOf(s[1..], c)
      case None => None
      case Some(k) => assert s[..k + 1] == [s[0]] + s[1..][..k]; Some(k + 1)
  }

  function FourDigitValue(t: string): (n: int)
    requires |t| == 4 && forall i :: 0 <= i < 4 ==> IsDigit(t[i])
    ensures 0 <= n <= 9999
  {
    1000 * DigitValue(t[0]) + 100 * DigitValue(t[1]) + 10 * DigitValue(t[2]) + DigitValue(t[3])
  }

  /** `datetime.strptime(s, "%Y-%m-%d").date()`; `None` where it raises ValueError. */
  function ParseDate(s: string): (r: Option<Date>)
    ensures r.Some? ==> ValidDate(r.value)
  {
    if |s| < 5 || s[4] != '-' || !(forall i :: 0 <= i < 4 ==> IsDigit(s[i])) then None
    else
      var rest := s[5..];
      match FirstIndexOf(rest, '-')
      case None => None
      case Some(k) =>
        var month := MonthToken(rest[..k]);
        var day := DayToken(rest[k + 1..]);
        var year := FourDigitValue(s[..4]);
        if month.None? || day.None? || year < 1 || day.value > DaysInMonth(year, month.value) then None
        else Some(Date(year, month.value, day.value))
  }

  /** Two-digit zero-padded rendering of 0..99. */
  function Pad2(n: int): (t: string)
    requires 0 <= n <= 99
    ensures |t| == 2 && IsDigit(t[0]) && IsDigit(t[1])
    ensures 10 * DigitValue(t[0]) + DigitValue(t[1]) == n
  {
    [DigitChar(n / 10), DigitChar(n % 10)]
  }

  /** Four-digit zero-padded rendering of 0..9999. */
  function Pad4(n: int): (t: string)
    requires 0 <= n <= 9999
    ensures |t| == 4 && forall i :: 0 <= i < 4 ==> IsDigit(t[i])
    ensures FourDigitValue(t) == n
  {
    var hi, lo := Pad2(n / 100), Pad2(n % 100);
    assert (hi + lo)[2..] == lo;
    hi + lo
  }

  /** `date.isoformat()`: how the API renders a stored release date. */
  function IsoFormat(d: Date): string
    requires ValidDate(d)
  {
    Pad4(d.year) + "-" + Pad2(d.month) + "-" + Pad2(d.day)
  }

  /** Every date the API renders parses back to itself. */
  lemma ParseIsoFormat(d: Date)
    requires ValidDate(d)
    ensures ParseDate(IsoFormat(d)) == Some(d)
  {
    var s := IsoFormat(d);
    var y, m, dd := Pad4(d.year), Pad2(d.month), Pad2(d.day);
    assert s[..4] == y && s[4] == '-';
    var rest := s[5..];
    assert rest == m + "-" + dd;
    assert '-' !in m;
    assert FirstIndexOf(rest, '-') == Some(2);
    assert rest[..2] == m && rest[3..] == dd;
    assert MonthToken(m) == Some(d.month);
    assert DayToken(dd) == Some(d.day);
  }

  /** A month token with its first character dropped: "2024-013-01" is not a date. */
  lemma ThreeDigitMonthRejected()
    ensures ParseDate("2024-013-01") == None
  {
    assert FirstIndexOf("013-01", '-') == Some(3);
  }

  /** Single-digit months and space-padded days are accepted, as strptime does. */
  lemma ShortFormsAccepted()
    ensures ParseDate("1992-2- 4") == Some(Date(1992, 2, 4))
  {
    assert FirstIndexOf("2- 4", '-') == Some(1);
  }

  /** 29 February is refused in 2023, which is not a leap year. */
  lemma LeapDayRefused()
    ensures ParseDate("2023-02-29") == None
  {
    assert FirstIndexOf("02-29", '-') == Some(2);
  }

  /** 29 February is accepted in the leap year 2024. */
  lemma LeapDayAccepted()
    ensures ParseDate("2024-02-29") == Some(Date(2024, 2, 29))
  {
    assert FirstIndexOf("02-29", '-') == Some(2);
  }
}
