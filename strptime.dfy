/**
  `datetime.strptime` for the two formats the handlers use, `"%H:%M"` and `"%Y-%m-%d"`.
  CPython turns a format into a regular expression and applies it with `re.match`: each
  directive is a list of alternatives tried in order, with backtracking into an earlier
  directive when a later part of the expression fails. A string with no match gets the
  "does not match format" error, a match that stops before the end gets "unconverted data
  remains" with the rest, and a date whose fields match but name no day of the calendar is
  refused by the `date` constructor.
 */
module Strptime {
  import opened Wrappers
  import opened DateTime

  /** A number read by one alternative of a directive: its value and how many characters it took. */
  datatype Field = Field(value: nat, len: nat)

  /** `f` is one or two decimal digits of `s` starting at `i`. */
  predicate DigitsAt(s: string, i: nat, f: Field)
  {
    || (f.len == 1 && i < |s| && IsDigit(s[i]) && f.value == DigitValue(s[i]))
    || (f.len == 2 && i + 1 < |s| && IsDigit(s[i]) && IsDigit(s[i + 1]) &&
        f.value == 10 * DigitValue(s[i]) + DigitValue(s[i + 1]))
  }

  function One(s: string, i: nat): (f: Field)
    requires i < |s| && IsDigit(s[i])
    ensures DigitsAt(s, i, f) && f.len == 1
  {
    Field(DigitValue(s[i]), 1)
  }

  function Two(s: string, i: nat): (f: Field)
    requires i + 1 < |s| && IsDigit(s[i]) && IsDigit(s[i + 1])
    ensures DigitsAt(s, i, f) && f.len == 2
  {
    Field(10 * DigitValue(s[i]) + DigitValue(s[i + 1]), 2)
  }

  // ---------------------------------------------------------------- the directives

  /** `%H` is `2[0-3]|[0-1]\d|\d`: the fields it can read at `i`, in the order it tries them. */
  function HourAt(s: string, i: nat): (r: seq<Field>)
    ensures forall f | f in r :: DigitsAt(s, i, f) && f.value < 24
  {
    (if i + 1 < |s| && s[i] == '2' && '0' <= s[i + 1] <= '3' then [Two(s, i)] else []) +
    (if i + 1 < |s| && '0' <= s[i] <= '1' && IsDigit(s[i + 1]) then [Two(s, i)] else []) +
    (if i < |s| && IsDigit(s[i]) then [One(s, i)] else [])
  }

  /**
    `%M` is `[0-5]\d|\d`. Nothing follows it in `"%H:%M"`, so the first alternative that
    reads anything is the match.
   */
  function MinuteAt(s: string, i: nat): (r: Option<Field>)
    ensures r.Some? ==> DigitsAt(s, i, r.value) && r.value.value < 60
  {
    if i + 1 < |s| && '0' <= s[i] <= '5' && IsDigit(s[i + 1]) then Some(Two(s, i))
    else if i < |s| && IsDigit(s[i]) then Some(One(s, i))
    else None
  }

  /** `%m` is `1[0-2]|0[1-9]|[1-9]`: the fields it can read at `i`, in the order it tries them. */
  function MonthAt(s: string, i: nat): (r: seq<Field>)
    ensures forall f | f in r :: DigitsAt(s, i, f) && 1 <= f.value <= 12
  {
    (if i + 1 < |s| && s[i] == '1' && '0' <= s[i + 1] <= '2' then [Two(s, i)] else []) +
    (if i + 1 < |s| && s[i] == '0' && '1' <= s[i + 1] <= '9' then [Two(s, i)] else []) +
    (if i < |s| && '1' <= s[i] <= '9' then [One(s, i)] else [])
  }

  /** The day `%d` reads: one or two digits, or a blank and a digit. */
  predicate DayField(s: string, i: nat, f: Field)
  {
    || DigitsAt(s, i, f)
    || (f.len == 2 && i + 1 < |s| && s[i] == ' ' && IsDigit(s[i + 1]) && f.value == DigitValue(s[i + 1]))
  }

  /**
    `%d` is `3[01]|[12]\d|0[1-9]|[1-9]| [1-9]`. Nothing follows it in `"%Y-%m-%d"`, so the
    first alternative that reads anything is the match.
   */
  function DayAt(s: string, i: nat): (r: Option<Field>)
    ensures r.Some? ==> DayField(s, i, r.value) && 1 <= r.value.value <= 31
  {
    if i + 1 < |s| && s[i] == '3' && '0' <= s[i + 1] <= '1' then Some(Two(s, i))
    else if i + 1 < |s| && '1' <= s[i] <= '2' && IsDigit(s[i + 1]) then Some(Two(s, i))
    else if i + 1 < |s| && s[i] == '0' && '1' <= s[i + 1] <= '9' then Some(Two(s, i))
    else if i < |s| && '1' <= s[i] <= '9' then Some(One(s, i))
    else if i + 1 < |s| && s[i] == ' ' && '1' <= s[i + 1] <= '9' then Some(Field(DigitValue(s[i + 1]), 2))
    else None
  }

  // ---------------------------------------------------------------- matching a whole format

  datatype TimeMatch = TimeMatch(hour: Field, minute: Field)

  /**
    `re.match` of `%H:%M` at the start of `s`: the first hour among `hours` that is followed by
    a colon and a minute.
   */
  function MatchTime(s: string, hours: seq<Field>): (r: Option<TimeMatch>)
    ensures r.Some? ==>
      && r.value.hour in hours && r.value.hour.len < |s| && s[r.value.hour.len] == ':'
      && MinuteAt(s, r.value.hour.len + 1) == Some(r.value.minute)
    ensures r.None? ==>
      forall f | f in hours :: !(f.len < |s| && s[f.len] == ':' && MinuteAt(s, f.len + 1).Some?)
  {
    if hours == [] then None
    else
      var h := hours[0];
      if h.len < |s| && s[h.len] == ':' && MinuteAt(s, h.len + 1).Some? then
        Some(TimeMatch(h, MinuteAt(s, h.len + 1).value))
      else MatchTime(s, hours[1..])
  }

  datatype DateMatch = DateMatch(year: Field, month: Field, day: Field)

  /** The first month among `months` (read at index 5) that is followed by a dash and a day. */
  function MatchMonthDay(s: string, months: seq<Field>): (r: Option<(Field, Field)>)
    ensures r.Some? ==>
      && r.value.0 in months && 5 + r.value.0.len < |s| && s[5 + r.value.0.len] == '-'
      && DayAt(s, 6 + r.value.0.len) == Some(r.value.1)
    ensures r.None? ==>
      forall f | f in months :: !(5 + f.len < |s| && s[5 + f.len] == '-' && DayAt(s, 6 + f.len).Some?)
  {
    if months == [] then None
    else
      var m := months[0];
      if 5 + m.len < |s| && s[5 + m.len] == '-' && DayAt(s, 6 + m.len).Some? then
        Some((m, DayAt(s, 6 + m.len).value))
      else MatchMonthDay(s, months[1..])
  }

  /** `%Y` is `\d\d\d\d`, followed by a dash, a month, a dash and a day. */
  function MatchDate(s: string): (r: Option<DateMatch>)
  {
    if |s| >= 5 && IsDigit(s[0]) && IsDigit(s[1]) && IsDigit(s[2]) && IsDigit(s[3]) && s[4] == '-' then
      match MatchMonthDay(s, MonthAt(s, 5))
      case None => None
      case Some((m, d)) => Some(DateMatch(Field(Digits4(s[..4]), 4), m, d))
    else None
  }

  // ---------------------------------------------------------------- error texts

  function HexDigit(n: nat): char
    requires n < 16
  {
    "0123456789abcdef"[n]
  }

  /** One character as Python's `repr` writes it inside the quote `q`. */
  function ReprChar(c: char, q: char): string
  {
    if c == q || c == '\\' then ['\\', c]
    else if c == '\t' then "\\t"
    else if c == '\n' then "\\n"
    else if c == '\r' then "\\r"
    else if c < ' ' || c as int == 0x7f then ['\\', 'x', HexDigit(c as int / 16), HexDigit(c as int % 16)]
    else [c]
  }

  function ReprBody(s: string, q: char): string
  {
    if s == [] then [] else ReprChar(s[0], q) + ReprBody(s[1..], q)
  }

  /** The quote `repr` puts around a string: `"` when it holds `'` and no `"`, else `'`. */
  function ReprQuote(s: string): char
  {
    if '\'' in s && '"' !in s then '"' else '\''
  }

  /** Python's `repr` of a string, as `%r` writes it. */
  function PyRepr(s: string): (r: string)
    ensures |r| >= 2 && r[0] == r[|r| - 1] == ReprQuote(s)
  {
    [ReprQuote(s)] + ReprBody(s, ReprQuote(s)) + [ReprQuote(s)]
  }

  /** A character `repr` writes as itself whatever the quote. */
  predicate Plain(c: char)
  {
    ' ' <= c && c as int != 0x7f && c != '\'' && c != '"' && c != '\\'
  }

  lemma {:induction false} ReprBodyPlain(s: string, q: char)
    requires forall i :: 0 <= i < |s| ==> Plain(s[i])
    requires q == '\'' || q == '"'
    ensures ReprBody(s, q) == s
  {
    if s != [] {
      ReprBodyPlain(s[1..], q);
      assert s == [s[0]] + s[1..];
    }
  }

  /** A string without quotes, backslashes or control characters is written between single quotes. */
  lemma PyReprPlain(s: string)
    requires forall i :: 0 <= i < |s| ==> Plain(s[i])
    ensures PyRepr(s) == "'" + s + "'"
  {
    assert '\'' !in s by {
      forall i | 0 <= i < |s| ensures s[i] != '\'' {
        assert Plain(s[i]);
      }
    }
    ReprBodyPlain(s, '\'');
  }

  function NoMatch(s: string, format: string): string
  {
    "time data " + PyRepr(s) + " does not match format " + PyRepr(format)
  }

  // ---------------------------------------------------------------- the two parsers

  /** `strptime(s, "%H:%M").time()`, as minutes since midnight, or the `ValueError` text. */
  function ParseTime(s: string): Result<Minute, string>
  {
    match MatchTime(s, HourAt(s, 0))
    case None => Err(NoMatch(s, "%H:%M"))
    case Some(t) =>
      var end := t.hour.len + 1 + t.minute.len;
      if end < |s| then Err("unconverted data remains: " + s[end..])
      else Ok(60 * t.hour.value + t.minute.value)
  }

  /** `strptime(s, "%Y-%m-%d").date()`, or the `ValueError` text. */
  function ParseDate(s: string): (r: Result<Date, string>)
    ensures r.Ok? ==> ValidDate(r.value)
  {
    match MatchDate(s)
    case None => Err(NoMatch(s, "%Y-%m-%d"))
    case Some(m) =>
      var end := 6 + m.month.len + m.day.len;
      if end < |s| then Err("unconverted data remains: " + s[end..])
      else if m.year.value == 0 then Err("year 0 is out of range")
      else if m.day.value > DaysInMonth(m.year.value, m.month.value) then Err("day is out of range for month")
      else Ok(Date(m.year.value, m.month.value, m.day.value))
  }

  // ---------------------------------------------------------------- what the parsers accept

  /** One or two decimal digits, read as a number. */
  function Number(t: string): Option<nat>
  {
    if |t| == 1 && IsDigit(t[0]) then Some(DigitValue(t[0]))
    else if |t| == 2 && IsDigit(t[0]) && IsDigit(t[1]) then Some(Digits2(t))
    else None
  }

  /**
    The times `"%H:%M"` accepts, stated without the regular expression: an hour of one or two
    digits below 24, a colon, and a minute of one or two digits below 60, and nothing else.
   */
  function ClockValue(s: string): Option<Minute>
  {
    var c := if 1 < |s| && s[1] == ':' then 1 else 2;
    if c < |s| && s[c] == ':' then
      match (Number(s[..c]), Number(s[c + 1..]))
      case (Some(h), Some(m)) => if h < 24 && m < 60 then Some(60 * h + m) else None
      case _ => None
    else None
  }

  /** The blank-padded day `%d` also reads, or a number. */
  function DayNumber(t: string): Option<nat>
  {
    if |t| == 2 && t[0] == ' ' && IsDigit(t[1]) then Some(DigitValue(t[1])) else Number(t)
  }

  /**
    The dates `"%Y-%m-%d"` accepts, stated without the regular expression: four digits, a
    dash, a month of one or two digits from 1 to 12, a dash, and a day of one or two digits
    (or a blank and a digit) that exists in that month of a year other than 0.
   */
  function DateValue(s: string): Option<Date>
  {
    if |s| >= 5 && IsDigit(s[0]) && IsDigit(s[1]) && IsDigit(s[2]) && IsDigit(s[3]) && s[4] == '-' then
      var y := Digits4(s[..4]);
      var c := if 6 < |s| && s[6] == '-' then 6 else 7;
      if c < |s| && s[c] == '-' then
        match (Number(s[5..c]), DayNumber(s[c + 1..]))
        case (Some(m), Some(d)) =>
          if y != 0 && 1 <= m <= 12 && 1 <= d <= DaysInMonth(y, m) then Some(Date(y, m, d)) else None
        case _ => None
      else None
    else None
  }

  /** One or two digits read as a field are the number `Number` reads there. */
  lemma DigitsNumber(s: string, i: nat, f: Field)
    requires DigitsAt(s, i, f)
    ensures Number(s[i..i + f.len]) == Some(f.value)
  {
    var t := s[i..i + f.len];
    assert t[0] == s[i];
    if f.len == 2 {
      assert t[1] == s[i + 1];
    }
  }

  lemma DayFieldNumber(s: string, i: nat, f: Field)
    requires DayField(s, i, f) && i + f.len == |s|
    ensures DayNumber(s[i..]) == Some(f.value)
  {
    var t := s[i..];
    assert t[0] == s[i];
    if f.len == 2 {
      assert t[1] == s[i + 1];
    }
  }

  /** A minute of one or two digits below 60 that runs to the end is what `%M` reads. */
  lemma MinuteAtNumber(s: string, i: nat)
    requires i <= |s| && Number(s[i..]).Some? && Number(s[i..]).value < 60
    ensures MinuteAt(s, i) == Some(Field(Number(s[i..]).value, |s| - i))
  {
    var t := s[i..];
    assert t[0] == s[i];
    if |t| == 2 {
      assert t[1] == s[i + 1];
    }
  }

  /** A day from 1 to 31 that runs to the end is what `%d` reads. */
  lemma DayAtNumber(s: string, i: nat)
    requires i <= |s| && DayNumber(s[i..]).Some? && 1 <= DayNumber(s[i..]).value <= 31
    ensures DayAt(s, i) == Some(Field(DayNumber(s[i..]).value, |s| - i))
  {
    var t := s[i..];
    assert t[0] == s[i];
    if |t| == 2 {
      assert t[1] == s[i + 1];
    }
  }

  /** A time of the reference shape is read with the reference value. */
  lemma ClockValueParses(s: string)
    requires ClockValue(s).Some?
    ensures ParseTime(s) == Ok(ClockValue(s).value)
  {
    var hs := HourAt(s, 0);
    var c := if 1 < |s| && s[1] == ':' then 1 else 2;
    assert s[..c][0] == s[0];
    if c == 2 {
      assert s[..c][1] == s[1];
    }
    var f := if c == 1 then One(s, 0) else Two(s, 0);
    assert hs[0] == f;
    MinuteAtNumber(s, c + 1);
    assert MatchTime(s, hs) == Some(TimeMatch(f, MinuteAt(s, c + 1).value));
  }

  /** A time the parser reads has the reference shape and value. */
  lemma ParseTimeClock(s: string)
    requires ParseTime(s).Ok?
    ensures ClockValue(s) == Some(ParseTime(s).value)
  {
    var t := MatchTime(s, HourAt(s, 0)).value;
    var c := t.hour.len;
    DigitsNumber(s, 0, t.hour);
    DigitsNumber(s, c + 1, t.minute);
    assert s[c + 1..] == s[c + 1..c + 1 + t.minute.len];
  }

  /** A time is accepted exactly when it has the shape `ClockValue` describes, with that value. */
  lemma ParseTimeAccepts(s: string)
    ensures ParseTime(s).Ok? <==> ClockValue(s).Some?
    ensures ParseTime(s).Ok? ==> ParseTime(s) == Ok(ClockValue(s).value)
  {
    if ClockValue(s).Some? {
      ClockValueParses(s);
    }
    if ParseTime(s).Ok? {
      ParseTimeClock(s);
    }
  }

  /** A date of the reference shape is read as the reference date. */
  lemma DateValueParses(s: string)
    requires DateValue(s).Some?
    ensures ParseDate(s) == Ok(DateValue(s).value)
  {
    var ms := MonthAt(s, 5);
    var c := if 6 < |s| && s[6] == '-' then 6 else 7;
    assert s[5..c][0] == s[5];
    if c == 7 {
      assert s[5..c][1] == s[6];
    }
    var f := if c == 6 then One(s, 5) else Two(s, 5);
    assert ms[0] == f;
    DayAtNumber(s, c + 1);
    assert MatchMonthDay(s, ms) == Some((f, DayAt(s, c + 1).value));
  }

  /** A date the parser reads has the reference shape and value. */
  lemma ParseDateValue(s: string)
    requires ParseDate(s).Ok?
    ensures DateValue(s) == Some(ParseDate(s).value)
  {
    var m := MatchDate(s).value;
    var c := 5 + m.month.len;
    DigitsNumber(s, 5, m.month);
    DayFieldNumber(s, c + 1, m.day);
  }

  /** A date is accepted exactly when it has the shape `DateValue` describes, with that date. */
  lemma ParseDateAccepts(s: string)
    ensures ParseDate(s).Ok? <==> DateValue(s).Some?
    ensures ParseDate(s).Ok? ==> ParseDate(s) == Ok(DateValue(s).value)
  {
    if DateValue(s).Some? {
      DateValueParses(s);
    }
    if ParseDate(s).Ok? {
      ParseDateValue(s);
    }
  }

  /** A strict `"HH:MM"` string reads as the value `ParseHM` gives it. */
  lemma ParseTimeStrict(s: string)
    requires ParseHM(s).Some?
    ensures ParseTime(s) == Ok(ParseHM(s).value)
  {
    assert s[..2][0] == s[0] && s[..2][1] == s[1];
    assert s[3..][0] == s[3] && s[3..][1] == s[4];
    ParseTimeAccepts(s);
  }

  /** A time written with `%H:%M` reads back as that time. */
  lemma ParseFormatTime(m: Minute)
    ensures ParseTime(FormatHM(m)) == Ok(m)
  {
    ParseFormatHM(m);
    ParseTimeStrict(FormatHM(m));
  }

  /** On a ten-character `YYYY-MM-DD` string the reference reads the three fixed-width fields. */
  lemma DateValueOfShape(s: string)
    requires DateShape(s)
    ensures var y, m, d := Digits4(s[..4]), Digits2(s[5..7]), Digits2(s[8..]);
      DateValue(s) == if y != 0 && 1 <= m <= 12 && 1 <= d <= DaysInMonth(y, m) then Some(Date(y, m, d)) else None
  {
    assert s[8..][0] == s[8];
  }

  /** `date.isoformat()` has the ten-character shape, and its fields are the date's. */
  lemma FormatDateFields(d: Date)
    requires ValidDate(d)
    ensures var s := FormatDate(d);
      && DateShape(s)
      && Digits4(s[..4]) == d.year && Digits2(s[5..7]) == d.month && Digits2(s[8..]) == d.day
  {
    var s := FormatDate(d);
    var p, q, r := Pad4(d.year), Pad2(d.month), Pad2(d.day);
    assert s == p + "-" + q + "-" + r;
    assert s[..4] == p && s[5..7] == q && s[8..] == r;
  }

  /** `date.isoformat()` of a valid date reads back as that date. */
  lemma ParseFormatDate(d: Date)
    requires ValidDate(d)
    ensures ParseDate(FormatDate(d)) == Ok(d)
  {
    FormatDateFields(d);
    DateValueOfShape(FormatDate(d));
    DateValueParses(FormatDate(d));
  }

  /** Every ten-character date the parser accepts is the `isoformat()` of its date. */
  lemma FormatParseDate(s: string)
    requires DateShape(s) && ParseDate(s).Ok?
    ensures FormatDate(ParseDate(s).value) == s
  {
    ParseDateValue(s);
    DateValueOfShape(s);
    var d := ParseDate(s).value;
    var t := FormatDate(d);
    Pad2Inverse(s[5..7], t[5..7]);
    Pad2Inverse(s[8..], t[8..]);
    Pad2Inverse(s[..2], t[..2]);
    Pad2Inverse(s[2..4], t[2..4]);
    assert t == s;
  }

  /** The refusal text of a string and a format that `repr` writes between single quotes. */
  lemma NoMatchPlain(s: string, format: string)
    requires forall i :: 0 <= i < |s| ==> Plain(s[i])
    requires forall i :: 0 <= i < |format| ==> Plain(format[i])
    ensures NoMatch(s, format) == "time data " + ("'" + s + "'") + " does not match format " + ("'" + format + "'")
  {
    PyReprPlain(s);
    PyReprPlain(format);
  }

  /** The year field of a string whose first four characters are the digits `a`, `b`, `c`, `d`. */
  lemma YearOf(s: string, a: nat, b: nat, c: nat, d: nat)
    requires a < 10 && b < 10 && c < 10 && d < 10
    requires |s| >= 4 && s[0] == ('0' as int + a) as char && s[1] == ('0' as int + b) as char
    requires s[2] == ('0' as int + c) as char && s[3] == ('0' as int + d) as char
    ensures IsDigit(s[0]) && IsDigit(s[1]) && IsDigit(s[2]) && IsDigit(s[3])
    ensures Digits4(s[..4]) == 1000 * a + 100 * b + 10 * c + d
  {
    var t := s[..4];
    assert t[..2][0] == s[0] && t[..2][1] == s[1];
    assert t[2..][0] == s[2] && t[2..][1] == s[3];
  }

  /** A minute from 60 to 99: `%M` reads its first digit and the second is left over. */
  lemma MinuteSixtyExample()
    ensures ParseTime("12:60") == Err("unconverted data remains: " + "0")
  {
    var a := "12:60";
    assert HourAt(a, 0) == [Field(12, 2), Field(1, 1)];
    assert MinuteAt(a, 3) == Some(Field(6, 1));
    assert MatchTime(a, HourAt(a, 0)) == Some(TimeMatch(Field(12, 2), Field(6, 1)));
    assert a[4..] == "0";
  }

  /** Hour 24: no hour alternative is followed by the colon, so nothing matches. */
  lemma HourTwentyFourExample()
    ensures ParseTime("24:00") == Err(NoMatch("24:00", "%H:%M"))
  {
    var a := "24:00";
    assert HourAt(a, 0) == [Field(2, 1)];
    assert MatchTime(a, HourAt(a, 0)) == None;
  }

  /** Single-digit hours and minutes are read too. */
  lemma ShortTimeExamples()
    ensures ParseTime("9:05") == Ok(545)
    ensures ParseTime("12:5") == Ok(725)
  {
    var a := "9:05";
    assert HourAt(a, 0) == [Field(9, 1)];
    assert MinuteAt(a, 2) == Some(Field(5, 2));
    assert MatchTime(a, HourAt(a, 0)) == Some(TimeMatch(Field(9, 1), Field(5, 2)));
    var b := "12:5";
    assert HourAt(b, 0) == [Field(12, 2), Field(1, 1)];
    assert MinuteAt(b, 3) == Some(Field(5, 1));
    assert MatchTime(b, HourAt(b, 0)) == Some(TimeMatch(Field(12, 2), Field(5, 1)));
  }

  /** A day from 32 to 39: `%d` reads its first digit and the second is left over. */
  lemma DayThirtyTwoExample()
    ensures ParseDate("2025-01-32") == Err("unconverted data remains: " + "2")
  {
    var a := "2025-01-32";
    assert MonthAt(a, 5) == [Field(1, 2)];
    assert DayAt(a, 8) == Some(Field(3, 1));
    assert MatchMonthDay(a, MonthAt(a, 5)) == Some((Field(1, 2), Field(3, 1)));
    assert a[9..] == "2";
  }

  /** Day 00 and month 13 leave nothing for the rest of the expression, so nothing matches. */
  lemma DateNoMatchExamples()
    ensures ParseDate("2025-01-00") == Err(NoMatch("2025-01-00", "%Y-%m-%d"))
    ensures ParseDate("2025-13-01") == Err(NoMatch("2025-13-01", "%Y-%m-%d"))
  {
    var a := "2025-01-00";
    assert MonthAt(a, 5) == [Field(1, 2)];
    assert DayAt(a, 8) == None;
    assert MatchMonthDay(a, MonthAt(a, 5)) == None;
    var b := "2025-13-01";
    assert MonthAt(b, 5) == [Field(1, 1)];
    assert MatchMonthDay(b, MonthAt(b, 5)) == None;
  }

  /** The fields match but there is no 29 February in 2025. */
  lemma DayRangeExample()
    ensures ParseDate("2025-02-29") == Err("day is out of range for month")
  {
    var a := "2025-02-29";
    YearOf(a, 2, 0, 2, 5);
    assert MonthAt(a, 5) == [Field(2, 2)];
    assert DayAt(a, 8) == Some(Field(29, 2));
    assert MatchMonthDay(a, MonthAt(a, 5)) == Some((Field(2, 2), Field(29, 2)));
    assert MatchDate(a) == Some(DateMatch(Field(2025, 4), Field(2, 2), Field(29, 2)));
    assert !IsLeap(2025) && DaysInMonth(2025, 2) == 28;
  }

  /** The fields match but the `date` constructor has no year 0. */
  lemma YearZeroExample()
    ensures ParseDate("0000-01-01") == Err("year 0 is out of range")
  {
    var b := "0000-01-01";
    YearOf(b, 0, 0, 0, 0);
    assert MonthAt(b, 5) == [Field(1, 2)];
    assert DayAt(b, 8) == Some(Field(1, 2));
    assert MatchMonthDay(b, MonthAt(b, 5)) == Some((Field(1, 2), Field(1, 2)));
    assert MatchDate(b) == Some(DateMatch(Field(0, 4), Field(1, 2), Field(1, 2)));
  }

  /** A one-digit month and day are read too. */
  lemma ShortDateExample()
    ensures ParseDate("2025-1-5") == Ok(Date(2025, 1, 5))
  {
    var a := "2025-1-5";
    YearOf(a, 2, 0, 2, 5);
    assert MonthAt(a, 5) == [Field(1, 1)];
    assert DayAt(a, 7) == Some(Field(5, 1));
    assert MatchMonthDay(a, MonthAt(a, 5)) == Some((Field(1, 1), Field(5, 1)));
    assert MatchDate(a) == Some(DateMatch(Field(2025, 4), Field(1, 1), Field(5, 1)));
  }

  /** `%d` also reads a day padded with a blank. */
  lemma BlankDayExample()
    ensures ParseDate("2025-01- 5") == Ok(Date(2025, 1, 5))
  {
    var b := "2025-01- 5";
    YearOf(b, 2, 0, 2, 5);
    assert MonthAt(b, 5) == [Field(1, 2)];
    assert DayAt(b, 8) == Some(Field(5, 2));
    assert MatchMonthDay(b, MonthAt(b, 5)) == Some((Field(1, 2), Field(5, 2)));
    assert MatchDate(b) == Some(DateMatch(Field(2025, 4), Field(1, 2), Field(5, 2)));
  }
}
