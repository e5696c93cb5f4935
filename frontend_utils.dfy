/**
  The browser's pure helpers on `Utils`: the booking page's time slots, the weekday names and
  the e-mail shape test.
 */
module Utils {
  import opened Wrappers
  import opened DateTime
  import opened Models
  import opened Text
  import DoctorsRouter

  // ---------------------------------------------------------------- time slots

  /** The minutes of the slots from `current` on, `duration` apart, while they begin before `e`. */
  function SlotMinutes(current: int, e: int, duration: int): seq<Minute>
    requires 0 <= current && e <= 1440 && duration > 0
    decreases e - current
  {
    if current >= e then [] else [current] + SlotMinutes(current + duration, e, duration)
  }

  /** `toTimeString().slice(0, 5)` of each slot. */
  function Render(times: seq<Minute>): (r: seq<string>)
    ensures |r| == |times|
  {
    if times == [] then [] else [FormatHM(times[0])] + Render(times[1..])
  }

  /** The "HH:MM" slots from `s` on, `duration` apart, while they begin before `e`. */
  function SlotTimes(s: int, e: int, duration: int): seq<string>
    requires 0 <= s <= 1440 && 0 <= e <= 1440 && duration > 0
  {
    Render(SlotMinutes(s, e, duration))
  }

  /**
    `new Date(`2000-01-01T${t}`)` as minutes after that midnight: a strict "HH:MM" time, or
    "24:00", which the date-time string format reads as the midnight that ends the day.
    Anything else is an invalid date.
   */
  function ParseClock(t: string): (r: Option<int>)
    ensures r.Some? <==> ParseHM(t).Some? || t == "24:00"
    ensures r.Some? ==> 0 <= r.value <= 1440
    ensures r == Some(1440) <==> t == "24:00"
    ensures ParseHM(t).Some? ==> r == Some(ParseHM(t).value)
  {
    if t == "24:00" then Some(1440 as int) else ParseHM(t)
  }

  /** What `generateTimeSlots` returns; an invalid `Date` compares false, so it gives no slots. */
  function TimeSlots(startTime: string, endTime: string, duration: int): seq<string>
    requires duration > 0
  {
    match (ParseClock(startTime), ParseClock(endTime))
    case (Some(s), Some(e)) => SlotTimes(s, e, duration)
    case _ => []
  }

  /**
    `generateTimeSlots(startTime, endTime, duration = 60)`: from the start, one "HH:MM" slot
    every `duration` minutes while the slot still begins before the end.
   */
  method GenerateTimeSlots(startTime: string, endTime: string, duration: int := 60)
    returns (slots: seq<string>)
    requires duration > 0
    ensures slots == TimeSlots(startTime, endTime, duration)
  {
    var start := ParseClock(startTime);
    var end := ParseClock(endTime);
    if start.None? || end.None? {
      return [];
    }
    slots := SlotsBetween(start.value, end.value, duration);
  }

  /** The loop of `generateTimeSlots`, once both times are read: push a slot, step `duration` on. */
  method SlotsBetween(s: int, e: int, duration: int) returns (slots: seq<string>)
    requires 0 <= s <= 1440 && 0 <= e <= 1440 && duration > 0
    ensures slots == SlotTimes(s, e, duration)
  {
    slots := [];
    var current: int := s;
    ghost var done: seq<Minute> := [];
    while current < e
      invariant s <= current
      invariant done + SlotMinutes(current, e, duration) == SlotMinutes(s, e, duration)
      invariant slots == Render(done)
      decreases e - current
    {
      var slot := FormatHM(current);
      RenderSnoc(done, current);
      SlotMinutesSnoc(done, current, e, duration);
      slots := slots + [slot];
      done := done + [current];
      current := current + duration;
    }
    assert done + [] == done;
  }

  /** Taking the next slot minute out of the rest keeps the whole list the same. */
  lemma SlotMinutesSnoc(done: seq<Minute>, current: Minute, e: int, duration: int)
    requires current < e <= 1440 && duration > 0
    ensures (done + [current]) + SlotMinutes(current + duration, e, duration) == done + SlotMinutes(current, e, duration)
  {
    AppendAssoc(done, [current], SlotMinutes(current + duration, e, duration));
  }

  lemma AppendAssoc<T>(a: seq<T>, b: seq<T>, c: seq<T>)
    ensures (a + b) + c == a + (b + c)
  {
  }

  /** Rendering one more minute adds its "HH:MM" at the end. */
  lemma {:induction false} RenderSnoc(times: seq<Minute>, m: Minute)
    ensures Render(times + [m]) == Render(times) + [FormatHM(m)]
  {
    if times != [] {
      assert (times + [m])[1..] == times[1..] + [m];
      RenderSnoc(times[1..], m);
      AppendAssoc([FormatHM(times[0])], Render(times[1..]), [FormatHM(m)]);
    }
  }

  /** The i-th rendered slot is the rendering of the i-th minute. */
  lemma {:induction false} RenderAt(times: seq<Minute>, i: int)
    requires 0 <= i < |times|
    ensures Render(times)[i] == FormatHM(times[i])
  {
    if i > 0 {
      RenderAt(times[1..], i - 1);
    }
  }

  /** There are slot minutes exactly when `current` is before `e`, and all of them lie in between. */
  lemma {:induction false} SlotMinutesBounds(current: int, e: int, duration: int)
    requires 0 <= current && e <= 1440 && duration > 0
    decreases e - current
    ensures SlotMinutes(current, e, duration) == [] <==> current >= e
    ensures forall m :: m in SlotMinutes(current, e, duration) ==> current <= m < e
  {
    if current < e {
      SlotMinutesBounds(current + duration, e, duration);
      assert SlotMinutes(current, e, duration) == [current] + SlotMinutes(current + duration, e, duration);
    }
  }

  /** The i-th slot minute is `current + i * duration`, and one more step would reach `e`. */
  lemma {:induction false} SlotMinutesAt(current: int, e: int, duration: int)
    requires 0 <= current && e <= 1440 && duration > 0
    decreases e - current
    ensures forall i :: 0 <= i < |SlotMinutes(current, e, duration)| ==>
      SlotMinutes(current, e, duration)[i] == current + i * duration
    ensures current + |SlotMinutes(current, e, duration)| * duration >= e
  {
    if current < e {
      var rest := SlotMinutes(current + duration, e, duration);
      SlotMinutesAt(current + duration, e, duration);
      var r := SlotMinutes(current, e, duration);
      assert r == [current] + rest;
      forall i | 0 <= i < |r| ensures r[i] == current + i * duration {
        if i > 0 {
          MulStep(i - 1, duration);
          assert r[i] == rest[i - 1];
        }
      }
      MulStep(|rest|, duration);
    }
  }

  lemma MulStep(n: int, d: int)
    ensures (n + 1) * d == d + n * d
  {
  }

  /**
    The promises of `generateTimeSlots`: nothing when a time does not parse; otherwise one slot
    per slot minute between the two parsed times, each reading back as its minute, the first
    being the start string itself.
   */
  lemma TimeSlotsMeaning(startTime: string, endTime: string, duration: int)
    requires duration > 0
    ensures ParseClock(startTime).None? || ParseClock(endTime).None? ==> TimeSlots(startTime, endTime, duration) == []
    ensures ParseClock(startTime).Some? && ParseClock(endTime).Some? ==>
      var r, m := TimeSlots(startTime, endTime, duration), SlotMinutes(ParseClock(startTime).value, ParseClock(endTime).value, duration);
      && |r| == |m|
      && (forall i :: 0 <= i < |r| ==> ParseHM(r[i]) == Some(m[i]))
      && (r != [] ==> r[0] == startTime)
  {
    if ParseClock(startTime).Some? && ParseClock(endTime).Some? {
      var s, e := ParseClock(startTime).value, ParseClock(endTime).value;
      var m := SlotMinutes(s, e, duration);
      forall i | 0 <= i < |m| ensures ParseHM(Render(m)[i]) == Some(m[i]) {
        RenderAt(m, i);
        ParseFormatHM(m[i]);
      }
      if m != [] {
        RenderAt(m, 0);
        FormatParseHM(startTime);
      }
    }
  }

  /**
    The slots in terms of the two parsed times `p` and `q`: none exactly when `p >= q`,
    slot `i` reads back as `p + i * duration`, every slot begins before `q` (so none runs past
    midnight), and the slots stop only once one more step would reach `q`.
   */
  lemma TimeSlotsSteps(startTime: string, endTime: string, duration: int)
    requires duration > 0
    requires ParseClock(startTime).Some? && ParseClock(endTime).Some?
    ensures var r, p, q := TimeSlots(startTime, endTime, duration), ParseClock(startTime).value, ParseClock(endTime).value;
      && (r == [] <==> p >= q)
      && (forall i :: 0 <= i < |r| ==> ParseHM(r[i]) == Some(p + i * duration) && p + i * duration < q)
      && p + |r| * duration >= q
  {
    var p, q := ParseClock(startTime).value, ParseClock(endTime).value;
    var m := SlotMinutes(p, q, duration);
    TimeSlotsMeaning(startTime, endTime, duration);
    SlotMinutesBounds(p, q, duration);
    SlotMinutesAt(p, q, duration);
    forall i | 0 <= i < |m| ensures p + i * duration < q {
      assert m[i] in m;
    }
  }

  /** An end of "24:00" is the next midnight, so the last hour of the day gets a slot. */
  lemma MidnightEndExample()
    ensures TimeSlots("22:00", "24:00", 60) == ["22:00", "23:00"]
  {
    MidnightSlotMinutes();
    assert Render([1320, 1380]) == [FormatHM(1320), FormatHM(1380)];
    FormatLastHours();
  }

  lemma MidnightSlotMinutes()
    ensures TimeSlots("22:00", "24:00", 60) == Render([1320, 1380])
  {
    assert ParseHM("22:00") == Some(1320);
    assert SlotMinutes(1320, 1440, 60) == [1320, 1380];
  }

  lemma FormatLastHours()
    ensures FormatHM(1320) == "22:00" && FormatHM(1380) == "23:00"
  {
    assert Pad2(22) == "22" && Pad2(23) == "23" && Pad2(0) == "00";
  }

  // ---------------------------------------------------------------- weekday names

  /** `getDayName(dayNumber)`: `days[dayNumber]`, undefined outside 0..6. */
  function GetDayName(dayNumber: int): (r: Option<string>)
    ensures r.Some? <==> 0 <= dayNumber <= 6
  {
    var days := ["Sunday", "Monday", "Tuesday", "Wednesday", "Thursday", "Friday", "Saturday"];
    if 0 <= dayNumber < |days| then Some(days[dayNumber]) else None
  }

  /** The page's day names follow the backend's weekday numbering, Sunday first. */
  lemma DayNamesAgree(n: int)
    requires 0 <= n <= 6
    ensures n in DoctorsRouter.WeekdayDays
    ensures UpperString(GetDayName(n).value) == DayValue(DoctorsRouter.WeekdayDays[n])
  {
    DoctorsRouter.WeekdayRoundTrip(n);
    if n == 0 { DayNameAgrees(n, "Sunday", Sunday); }
    else if n == 1 { DayNameAgrees(n, "Monday", Monday); }
    else if n == 2 { DayNameAgrees(n, "Tuesday", Tuesday); }
    else if n == 3 { DayNameAgrees(n, "Wednesday", Wednesday); }
    else if n == 4 { DayNameAgrees(n, "Thursday", Thursday); }
    else if n == 5 { DayNameAgrees(n, "Friday", Friday); }
    else { DayNameAgrees(n, "Saturday", Saturday); }
  }

  lemma DayNameAgrees(n: int, name: string, day: DayOfWeek)
    requires GetDayName(n) == Some(name) && n in DoctorsRouter.WeekdayDays && DoctorsRouter.WeekdayDays[n] == day
    requires |name| == |DayValue(day)| && forall k :: 0 <= k < |name| ==> Upper(name[k]) == DayValue(day)[k]
    ensures UpperString(GetDayName(n).value) == DayValue(DoctorsRouter.WeekdayDays[n])
  {
  }

  // ---------------------------------------------------------------- e-mail shape

  /** The characters `\s` matches in a JavaScript regular expression (and `trim` removes). */
  predicate IsJsWhitespace(c: char)
  {
    || c == '\t' || c == '\n' || c == '\U{000B}' || c == '\U{000C}' || c == '\r' || c == ' '
    || c == '\U{00A0}' || c == '\U{1680}' || ('\U{2000}' <= c <= '\U{200A}')
    || c == '\U{2028}' || c == '\U{2029}' || c == '\U{202F}' || c == '\U{205F}' || c == '\U{3000}'
    || c == '\U{FEFF}'
  }

  /** `[^\s@]+`: a non-empty run of characters that are neither whitespace nor '@'. */
  ghost predicate Plain(t: string)
  {
    |t| > 0 && forall k :: 0 <= k < |t| ==> !IsJsWhitespace(t[k]) && t[k] != '@'
  }

  /** `/^[^\s@]+@[^\s@]+\.[^\s@]+$/` read as a split of the whole string into its five parts. */
  ghost predicate EmailPattern(s: string)
  {
    exists i, j :: 0 <= i < j < |s| && s[i] == '@' && s[j] == '.' &&
      Plain(s[..i]) && Plain(s[i + 1..j]) && Plain(s[j + 1..])
  }

  /**
    `isValidEmail(email)`: no whitespace, exactly one '@' with something before it, and a '.'
    in the domain that is neither its first nor its last character.
   */
  predicate IsValidEmail(s: string)
  {
    && (forall k :: 0 <= k < |s| ==> !IsJsWhitespace(s[k]))
    && exists i :: 0 < i < |s| && s[i] == '@'
         && (forall k :: 0 <= k < |s| && k != i ==> s[k] != '@')
         && exists j :: i + 1 < j < |s| - 1 && s[j] == '.'
  }

  /** The shape test accepts exactly the strings the regular expression matches. */
  lemma IsValidEmailMatchesPattern(s: string)
    ensures IsValidEmail(s) <==> EmailPattern(s)
  {
    if IsValidEmail(s) {
      ValidEmailHasPattern(s);
    }
    if EmailPattern(s) {
      PatternIsValidEmail(s);
    }
  }

  lemma ValidEmailHasPattern(s: string)
    requires IsValidEmail(s)
    ensures EmailPattern(s)
  {
    var i :| 0 < i < |s| && s[i] == '@'
       && (forall k :: 0 <= k < |s| && k != i ==> s[k] != '@')
       && exists j :: i + 1 < j < |s| - 1 && s[j] == '.';
    var j :| i + 1 < j < |s| - 1 && s[j] == '.';
    var local, host, top := s[..i], s[i + 1..j], s[j + 1..];
    assert Plain(local) by {
      forall k | 0 <= k < |local| ensures !IsJsWhitespace(local[k]) && local[k] != '@' {
        assert local[k] == s[k];
      }
    }
    assert Plain(host) by {
      forall k | 0 <= k < |host| ensures !IsJsWhitespace(host[k]) && host[k] != '@' {
        assert host[k] == s[i + 1 + k];
      }
    }
    assert Plain(top) by {
      forall k | 0 <= k < |top| ensures !IsJsWhitespace(top[k]) && top[k] != '@' {
        assert top[k] == s[j + 1 + k];
      }
    }
  }

  lemma PatternIsValidEmail(s: string)
    requires EmailPattern(s)
    ensures IsValidEmail(s)
  {
    var i, j :| 0 <= i < j < |s| && s[i] == '@' && s[j] == '.' &&
      Plain(s[..i]) && Plain(s[i + 1..j]) && Plain(s[j + 1..]);
    var local, host, top := s[..i], s[i + 1..j], s[j + 1..];
    forall k | 0 <= k < |s| ensures !IsJsWhitespace(s[k]) && (k != i ==> s[k] != '@') {
      if k < i {
        assert local[k] == s[k];
      } else if i < k < j {
        assert host[k - (i + 1)] == s[k];
      } else if k > j {
        assert top[k - (j + 1)] == s[k];
      }
    }
    assert i + 1 < j < |s| - 1;
  }
}
