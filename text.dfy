/** Letter case, as Python's `str.upper` and JavaScript's `toUpperCase` apply it. */
module Text {
  /**
    The upper case of one character, as far as comparing the result with an ASCII capital
    word such as "ADMIN" can tell: ASCII letters, and the two other characters whose upper
    case is one ASCII letter (dotless i and long s). Every other character maps to something
    that is not an ASCII capital, or to several characters (a ligature, sharp s) that
    together spell no word of the letters A, D, M, I and N.
   */
  function Upper(c: char): char
  {
    if 'a' <= c <= 'z' then ((c as int) - 32) as char
    else if c == '\U{0131}' then 'I'
    else if c == '\U{017F}' then 'S'
    else c
  }

  function UpperString(s: string): (u: string)
    ensures |u| == |s| && forall i :: 0 <= i < |s| ==> u[i] == Upper(s[i])
  {
    if s == [] then [] else [Upper(s[0])] + UpperString(s[1..])
  }
}
