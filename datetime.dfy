/**
  Dates and times of day as the handlers write them: `"HH:MM"` times (`strftime("%H:%M")`)
  with the strict two-digit reading of them, `"YYYY-MM-DD"` dates (`isoformat()`), and the
  start and end of a booking (`datetime.combine` and `+ timedelta(minutes=n)`). The lenient
  `strptime` readings are in `Strptime`.
 */
module DateTime {
  import opened Wrappers

  /** A time of day, in minutes since midnight (the seconds are always zero here). */
  type Minute = m: int | 0 <= m < 1440

  predicate IsDigit(c: char)
  {
    '0' <= c <= '9'
  }

  function DigitValue(c: char): (n: nat)
    requires IsDigit(c)
    ensures n < 10
  {
    (c as int) - ('0' as int)
  }

  function DigitChar(n: nat): (c: char)
    requires n < 10
    ensures IsDigit(c) && DigitValue(c) == n
  {
    (('0' as int) + n) as char
  }

  /** Two decimal digits with a leading zero, as `%H` and `%M` write them. */
  function Pad2(n: nat): (s: string)
    requires n < 100
    ensures |s| == 2 && IsDigit(s[0]) && IsDigit(s[1])
    ensures 10 * DigitValue(s[0]) + DigitValue(s[1]) == n
  {
    [DigitChar(n / 10), DigitChar(n % 10)]
  }

  /** Four decimal digits with leading zeros, as `%Y` writes a year. */
  function Pad4(n: nat): (s: string)
    requires n < 10000
    ensures |s| == 4 && IsDigit(s[0]) && IsDigit(s[1]) && IsDigit(s[2]) && IsDigit(s[3])
    ensures Digits4(s) == n
  {
    Pad2(n / 100) + Pad2(n % 100)
  }

  function Digits2(s: string): nat
    requires |s| == 2 && IsDigit(s[0]) && IsDigit(s[1])
  {
    10 * DigitValue(s[0]) + DigitValue(s[1])
  }

  function Digits4(s: string): nat
    requires |s| == 4 && IsDigit(s[0]) && IsDigit(s[1]) && IsDigit(s[2]) && IsDigit(s[3])
  {
    100 * Digits2(s[..2]) + Digits2(s[2..])
  }

  /** The number a string of decimal digits writes, most significant digit first. */
  function DecimalValue(s: string): nat
    requires forall i :: 0 <= i < |s| ==> IsDigit(s[i])
  {
    if s == [] then 0 else 10 * DecimalValue(s[..|s| - 1]) + DigitValue(s[|s| - 1])
  }

  /** Decimal rendering of an integer, as `str(n)` and JavaScript template strings write it. */
  function NatToString(n: nat): (s: string)
    ensures |s| > 0 && forall i :: 0 <= i < |s| ==> IsDigit(s[i])
    ensures DecimalValue(s) == n
    ensures |s| > 1 ==> s[0] != '0'
  {
    if n < 10 then [DigitChar(n)]
    else
      var p := NatToString(n / 10);
      assert (p + [DigitChar(n % 10)])[..|p|] == p;
      p + [DigitChar(n % 10)]
  }

  function IntToString(n: int): string
  {
    if n < 0 then "-" + NatToString(-n) else NatToString(n)
  }

  // ---------------------------------------------------------------- times of day

  /** `"HH:MM"` with two digits each, an hour below 24 and a minute below 60. */
  function ParseHM(s: string): (r: Option<Minute>)
    ensures r.Some? ==> |s| == 5 && s[2] == ':'
  {
    if |s| == 5 && IsDigit(s[0]) && IsDigit(s[1]) && s[2] == ':' && IsDigit(s[3]) && IsDigit(s[4]) then
      var h := Digits2(s[..2]);
      var m := Digits2(s[3..]);
      if h < 24 && m < 60 then Some(60 * h + m) else None
    else None
  }

  /** `strftime("%H:%M")`. */
  function FormatHM(m: Minute): (s: string)
    ensures |s| == 5 && s[2] == ':'
    ensures IsDigit(s[0]) && IsDigit(s[1]) && IsDigit(s[3]) && IsDigit(s[4])
  {
    Pad2(m / 60) + ":" + Pad2(m % 60)
  }

  lemma ParseFormatHM(m: Minute)
    ensures ParseHM(FormatHM(m)) == Some(m)
  {
    var s := FormatHM(m);
    assert s[..2] == Pad2(m / 60) && s[3..] == Pad2(m % 60);
  }

  /** Every string the parser accepts is the canonical rendering of its value. */
  lemma FormatParseHM(s: string)
    requires ParseHM(s).Some?
    ensures FormatHM(ParseHM(s).value) == s
  {
    var h := Digits2(s[..2]);
    var mi := Digits2(s[3..]);
    var m := 60 * h + mi;
    assert m / 60 == h && m % 60 == mi;
    var p := Pad2(h);
    var q := Pad2(mi);
    assert p[0] == s[0] && p[1] == s[1] by {
      assert DigitValue(p[0]) == DigitValue(s[0]) && DigitValue(p[1]) == DigitValue(s[1]);
    }
    assert q[0] == s[3] && q[1] == s[4] by {
      assert DigitValue(q[0]) == DigitValue(s[3]) && DigitValue(q[1]) == DigitValue(s[4]);
    }
    assert FormatHM(m) == p + ":" + q;
  }

  // ---------------------------------------------------------------- calendar dates

  datatype Date = Date(year: int, month: int, day: int)

  predicate IsLeap(y: int)
  {
    y % 4 == 0 && (y % 100 != 0 || y % 400 == 0)
  }

  function DaysInMonth(y: int, m: int): int
    requires 1 <= m <= 12
  {
    if m == 2 then (if IsLeap(y) then 29 else 28)
    else if m == 4 || m == 6 || m == 9 || m == 11 then 30
    else 31
  }

  /** A date of the proleptic Gregorian calendar that Python's `date` can hold. */
  predicate ValidDate(d: Date)
  {
    1 <= d.year <= 9999 && 1 <= d.month <= 12 && 1 <= d.day <= DaysInMonth(d.year, d.month)
  }

  predicate DateShape(s: string)
  {
    |s| == 10 && s[4] == '-' && s[7] == '-' &&
    IsDigit(s[0]) && IsDigit(s[1]) && IsDigit(s[2]) && IsDigit(s[3]) &&
    IsDigit(s[5]) && IsDigit(s[6]) && IsDigit(s[8]) && IsDigit(s[9])
  }

  /** `date.isoformat()`. */
  function FormatDate(d: Date): string
    requires ValidDate(d)
  {
    Pad4(d.year) + "-" + Pad2(d.month) + "-" + Pad2(d.day)
  }

  /** Two-digit strings with the same value are the same string. */
  lemma Pad2Inverse(s: string, t: string)
    requires |s| == 2 && IsDigit(s[0]) && IsDigit(s[1])
    requires |t| == 2 && IsDigit(t[0]) && IsDigit(t[1])
    requires Digits2(s) == Digits2(t)
    ensures s == t
  {
    assert DigitValue(s[0]) == DigitValue(t[0]);
    assert DigitValue(s[1]) == DigitValue(t[1]);
  }

  // ---------------------------------------------------------------- timestamps

  /**
    A point in time as a date and a number of minutes after that date's midnight; the number
    may run past 1439, which stands for the following days without normalising the date.
   */
  datatype Timestamp = At(date: Date, minutes: int)

  /** `datetime.combine(date, time)`. */
  function Combine(d: Date, t: Minute): Timestamp
  {
    At(d, t)
  }

  /** `ts + timedelta(minutes=n)`. */
  function AddMinutes(ts: Timestamp, n: int): Timestamp
  {
    At(ts.date, ts.minutes + n)
  }

  /** The minutes from `a` to `b`, for timestamps counted from the same date. */
  function MinutesBetween(a: Timestamp, b: Timestamp): int
    requires a.date == b.date
  {
    b.minutes - a.minutes
  }
}
