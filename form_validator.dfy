/**
  `FormValidator`: the form checks the pages run before calling the API. Each check either
  passes (`return true`) or fails with the message of the `Error` it throws.
 */
module FormValidator {
  import opened Wrappers
  import opened DateTime
  import opened Utils
  import opened Tables

  datatype Check = Pass | Fail(message: string)

  // ---------------------------------------------------------------- required fields

  /** `trimStart`: drops the leading whitespace. */
  function TrimStart(s: string): (t: string)
    ensures |t| <= |s| && t == s[|s| - |t|..]
    ensures forall k :: 0 <= k < |s| - |t| ==> IsJsWhitespace(s[k])
    ensures t == [] || !IsJsWhitespace(t[0])
  {
    if s == [] || !IsJsWhitespace(s[0]) then s else TrimStart(s[1..])
  }

  /** `trimEnd`: drops the trailing whitespace. */
  function TrimEnd(s: string): (t: string)
    ensures |t| <= |s| && t == s[..|t|]
    ensures forall k :: |t| <= k < |s| ==> IsJsWhitespace(s[k])
    ensures t == [] || !IsJsWhitespace(t[|t| - 1])
  {
    if s == [] || !IsJsWhitespace(s[|s| - 1]) then s else TrimEnd(s[..|s| - 1])
  }

  /**
    `String.prototype.trim`: the middle of `s` between the whitespace at its two ends (and `i`
    characters of it at the start), which neither begins nor ends with whitespace.
   */
  function Trim(s: string): (t: string)
    ensures t == [] || (!IsJsWhitespace(t[0]) && !IsJsWhitespace(t[|t| - 1]))
    ensures var i := |s| - |TrimStart(s)|;
      && i + |t| <= |s| && t == s[i..i + |t|]
      && (forall k :: 0 <= k < i ==> IsJsWhitespace(s[k]))
      && (forall k :: i + |t| <= k < |s| ==> IsJsWhitespace(s[k]))
  {
    var u := TrimStart(s);
    var t := TrimEnd(u);
    MiddleOfSuffix(s, u, t);
    t
  }

  /**
    A prefix `t` of a suffix `u` of `s`, where `s` has only whitespace before `u`, `u` does not
    start with whitespace and has only whitespace after `t`: `t` is the middle of `s`.
   */
  lemma MiddleOfSuffix(s: string, u: string, t: string)
    requires |u| <= |s| && u == s[|s| - |u|..]
    requires forall k :: 0 <= k < |s| - |u| ==> IsJsWhitespace(s[k])
    requires u == [] || !IsJsWhitespace(u[0])
    requires |t| <= |u| && t == u[..|t|]
    requires forall k :: |t| <= k < |u| ==> IsJsWhitespace(u[k])
    requires t == [] || !IsJsWhitespace(t[|t| - 1])
    ensures t == [] || (!IsJsWhitespace(t[0]) && !IsJsWhitespace(t[|t| - 1]))
    ensures var i := |s| - |u|;
      && i + |t| <= |s| && t == s[i..i + |t|]
      && (forall k :: 0 <= k < i ==> IsJsWhitespace(s[k]))
      && (forall k :: i + |t| <= k < |s| ==> IsJsWhitespace(s[k]))
  {
    var i := |s| - |u|;
    assert t != [] ==> t[0] == u[0];
    forall k | i + |t| <= k < |s| ensures IsJsWhitespace(s[k]) {
      assert s[k] == u[k - i];
    }
  }

  /** A string trims to nothing exactly when all of it is whitespace. */
  lemma TrimEmpty(s: string)
    ensures Trim(s) == "" <==> forall k :: 0 <= k < |s| ==> IsJsWhitespace(s[k])
  {
    var t := TrimStart(s);
    assert t == [] || t[0] == s[|s| - |t|];
    assert t == [] || TrimEnd(t) != [];
  }

  /**
    `validateRequired(value, fieldName)`: `!value || value.trim() === ''`. A missing value
    (null or undefined) is `None`.
   */
  function ValidateRequired(value: Option<string>, fieldName: string): (r: Check)
    ensures r.Fail? <==> value.None? || forall k :: 0 <= k < |value.value| ==> IsJsWhitespace(value.value[k])
    ensures r.Fail? ==> r.message == fieldName + " is required"
  {
    if value.None? then Fail(fieldName + " is required")
    else
      TrimEmpty(value.value);
      if value.value == "" || Trim(value.value) == "" then Fail(fieldName + " is required") else Pass
  }

  // ---------------------------------------------------------------- e-mail and passwords

  /** `validateEmail(email)`: fails exactly on the strings the e-mail pattern does not match. */
  function ValidateEmail(email: string): (r: Check)
    ensures r.Fail? <==> !EmailPattern(email)
    ensures r.Fail? ==> r.message == "Please enter a valid email address"
  {
    IsValidEmailMatchesPattern(email);
    if !IsValidEmail(email) then Fail("Please enter a valid email address") else Pass
  }

  /** A character beyond the Basic Multilingual Plane, which UTF-16 writes as a surrogate pair. */
  predicate IsAstral(c: char)
  {
    c as int >= 0x10000
  }

  /** `password.length`: UTF-16 code units, two for a character beyond the Basic Multilingual Plane. */
  function Utf16Length(s: string): (n: nat)
    ensures n == |s| + |Filter(s, IsAstral)|
    ensures |s| <= n <= 2 * |s|
    ensures (forall k :: 0 <= k < |s| ==> (s[k] as int) < 0x10000) ==> n == |s|
  {
    if s == [] then 0 else (if IsAstral(s[0]) then 2 else 1) + Utf16Length(s[1..])
  }

  /** The code units of two strings put together are those of each. */
  lemma {:induction false} Utf16LengthAppend(a: string, b: string)
    ensures Utf16Length(a + b) == Utf16Length(a) + Utf16Length(b)
  {
    if a != [] {
      assert (a + b)[0] == a[0] && (a + b)[1..] == a[1..] + b;
      assert Utf16Length(a + b) == (if IsAstral(a[0]) then 2 else 1) + Utf16Length(a[1..] + b);
      Utf16LengthAppend(a[1..], b);
    } else {
      assert a + b == b;
    }
  }

  /** `validatePassword(password, minLength = 6)`. */
  function ValidatePassword(password: string, minLength: int := 6): (r: Check)
    ensures r.Fail? <==> Utf16Length(password) < minLength
    ensures r.Fail? ==> r.message == "Password must be at least " + IntToString(minLength) + " characters long"
  {
    if Utf16Length(password) < minLength then
      Fail("Password must be at least " + IntToString(minLength) + " characters long")
    else Pass
  }

  /** With the default minimum, any password of fewer than six characters is refused. */
  lemma ShortPasswordRefused(password: string)
    requires |password| < 6
    requires forall k :: 0 <= k < |password| ==> (password[k] as int) < 0x10000
    ensures ValidatePassword(password).Fail?
  {
  }

  /** `validatePasswordMatch(password, confirmPassword)`: `password !== confirmPassword`. */
  function ValidatePasswordMatch(password: string, confirmPassword: string): (r: Check)
    ensures r.Fail? <==> password != confirmPassword
    ensures r.Fail? ==> r.message == "Passwords do not match"
  {
    if password != confirmPassword then Fail("Passwords do not match") else Pass
  }

  // ---------------------------------------------------------------- times

  /** JavaScript's `a < b` on strings: lexicographic, a proper prefix first. */
  predicate StrLess(a: string, b: string)
  {
    if a == [] then b != []
    else if b == [] then false
    else if a[0] != b[0] then a[0] < b[0]
    else StrLess(a[1..], b[1..])
  }

  /** String order is a strict total order: of two different strings exactly one is below the other. */
  lemma {:induction false} StrLessTotal(a: string, b: string)
    ensures !(StrLess(a, b) && StrLess(b, a))
    ensures a != b ==> StrLess(a, b) || StrLess(b, a)
    ensures !StrLess(a, a)
  {
    if a != [] && b != [] && a[0] == b[0] {
      StrLessTotal(a[1..], b[1..]);
      if a != b {
        assert a == [a[0]] + a[1..] && b == [b[0]] + b[1..];
      }
    }
    if a != [] {
      StrLessTotal(a[1..], a[1..]);
    }
  }

  /** `validateTime(startTime, endTime)`: fails when `startTime >= endTime`. */
  function ValidateTime(startTime: string, endTime: string): (r: Check)
    ensures r.Fail? <==> !StrLess(startTime, endTime)
    ensures r.Fail? ==> r.message == "End time must be after start time"
  {
    if !StrLess(startTime, endTime) then Fail("End time must be after start time") else Pass
  }

  /** On two-digit, zero-padded "HH:MM" strings the text order is the order of the times. */
  lemma FormatHMOrder(a: Minute, b: Minute)
    ensures StrLess(FormatHM(a), FormatHM(b)) <==> a < b
  {
    var x, y := FormatHM(a), FormatHM(b);
    var ha, ma, hb, mb := a / 60, a % 60, b / 60, b % 60;
    assert x == [DigitChar(ha / 10), DigitChar(ha % 10), ':', DigitChar(ma / 10), DigitChar(ma % 10)];
    assert y == [DigitChar(hb / 10), DigitChar(hb % 10), ':', DigitChar(mb / 10), DigitChar(mb % 10)];
    assert a == 60 * ha + ma && b == 60 * hb + mb;
    if ha / 10 != hb / 10 {
      assert StrLess(x, y) <==> ha / 10 < hb / 10;
    } else if ha % 10 != hb % 10 {
      assert StrLess(x, y) == StrLess(x[1..], y[1..]);
      assert StrLess(x, y) <==> ha % 10 < hb % 10;
    } else {
      assert ha == hb;
      assert StrLess(x, y) == StrLess(x[1..], y[1..]) == StrLess(x[2..], y[2..]) == StrLess(x[3..], y[3..]);
      if ma / 10 != mb / 10 {
        assert StrLess(x[3..], y[3..]) <==> ma / 10 < mb / 10;
      } else {
        assert StrLess(x[3..], y[3..]) == StrLess(x[4..], y[4..]);
        assert StrLess(x[4..], y[4..]) <==> ma % 10 < mb % 10;
      }
    }
  }

  /** For times written as "HH:MM", the check passes exactly when the end is later. */
  lemma ValidateTimeChronological(startTime: string, endTime: string)
    requires ParseHM(startTime).Some? && ParseHM(endTime).Some?
    ensures ValidateTime(startTime, endTime).Pass? <==> ParseHM(startTime).value < ParseHM(endTime).value
  {
    FormatParseHM(startTime);
    FormatParseHM(endTime);
    FormatHMOrder(ParseHM(startTime).value, ParseHM(endTime).value);
  }
}
