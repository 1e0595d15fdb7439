/**
 * The Python text built-ins the manager relies on: `str.strip()`,
 * `str.lower()`, `str.upper()`, `str(int)` and `int(str)` in base 10.
 */
module Builtins {
  import opened Wrappers

  /** The characters for which Python's `str.isspace()` holds, by code point: tab to carriage
      return, the separators 0x1c-0x1f, space, and the Unicode spaces; `strip()` removes them. */
  predicate IsSpace(c: char) {
    var n := c as int;
    (9 <= n <= 13) || (28 <= n <= 32) || n == 0x85 || n == 0xa0 || n == 0x1680 || (0x2000 <= n <= 0x200a)
    || n == 0x2028 || n == 0x2029 || n == 0x202f || n == 0x205f || n == 0x3000
  }

  /** The white space `int()` skips around a numeral: every `str.isspace()`
      character except the separators 0x1c-0x1f, which CPython's `int()` keeps
      in the string and then refuses as not a digit. */
  predicate IsIntSpace(c: char) {
    IsSpace(c) && !(28 <= c as int <= 31)
  }

  predicate IsDigit(c: char) {
    '0' <= c <= '9'
  }

  /** `s.lstrip()` */
  function TrimStart(s: string): string {
    if s != [] && IsSpace(s[0]) then TrimStart(s[1..]) else s
  }

  /** `s.rstrip()` */
  function TrimEnd(s: string): string {
    if s != [] && IsSpace(s[|s| - 1]) then TrimEnd(s[..|s| - 1]) else s
  }

  /** `s.strip()` */
  function Strip(s: string): string {
    TrimEnd(TrimStart(s))
  }

  /** `lstrip()` removes a leading run of white space and stops at the first other character. */
  lemma {:induction false} TrimStartFacts(s: string)
    ensures var r := TrimStart(s);
            && |r| <= |s| && r == s[|s| - |r|..]
            && (forall i :: 0 <= i < |s| - |r| ==> IsSpace(s[i]))
            && (r == [] || !IsSpace(r[0]))
  {
    if s != [] && IsSpace(s[0]) {
      var t := s[1..];
      TrimStartFacts(t);
      var r := TrimStart(t);
      assert TrimStart(s) == r;
      forall i | 0 <= i < |s| - |r|
        ensures IsSpace(s[i])
      {
        if i > 0 {
          assert s[i] == t[i - 1];
        }
      }
      assert r == t[|t| - |r|..] == s[|s| - |r|..];
    }
  }

  /** `rstrip()` removes a trailing run of white space and stops at the last other character. */
  lemma {:induction false} TrimEndFacts(s: string)
    ensures var r := TrimEnd(s);
            && |r| <= |s| && r == s[..|r|]
            && (forall i :: |r| <= i < |s| ==> IsSpace(s[i]))
            && (r == [] || !IsSpace(r[|r| - 1]))
  {
    if s != [] && IsSpace(s[|s| - 1]) {
      TrimEndFacts(s[..|s| - 1]);
    }
  }

  /** Stripping leaves a string alone exactly when it neither starts nor ends with white space. */
  lemma StripUnchanged(s: string)
    ensures Strip(s) == s <==> (s == [] || (!IsSpace(s[0]) && !IsSpace(s[|s| - 1])))
  {
    TrimStartFacts(s);
    TrimEndFacts(TrimStart(s));
    if s != [] && !IsSpace(s[0]) && !IsSpace(s[|s| - 1]) {
      assert TrimStart(s) == s;
    }
  }

  /** A string strips to nothing exactly when every character of it is white space. */
  lemma StripEmpty(s: string)
    ensures Strip(s) == [] <==> forall i :: 0 <= i < |s| ==> IsSpace(s[i])
  {
    TrimStartFacts(s);
    TrimEndFacts(TrimStart(s));
  }

  /** Stripping twice is stripping once. */
  lemma StripIdempotent(s: string)
    ensures Strip(Strip(s)) == Strip(s)
  {
    var t := TrimStart(s);
    var r := TrimEnd(t);
    TrimStartFacts(s);
    TrimEndFacts(t);
    if r != [] {
      assert r[0] == t[0];
    }
    StripUnchanged(r);
  }

  // Letter case: only the ASCII letters are mapped. No character outside ASCII
  // lower-cases to one of the ASCII letters or digits the flag words below use.

  function LowerChar(c: char): char {
    if 'A' <= c <= 'Z' then (c as int + 32) as char else c
  }

  function UpperChar(c: char): char {
    if 'a' <= c <= 'z' then (c as int - 32) as char else c
  }

  /** `s.lower()` */
  function Lower(s: string): string {
    seq(|s|, i requires 0 <= i < |s| => LowerChar(s[i]))
  }

  /** `s.upper()` */
  function Upper(s: string): string {
    seq(|s|, i requires 0 <= i < |s| => UpperChar(s[i]))
  }

  /** Lower-casing forgets which case a letter was written in. */
  lemma LowerOfUpper(s: string)
    ensures Lower(Upper(s)) == Lower(s)
  {
    assert forall i :: 0 <= i < |s| ==> LowerChar(UpperChar(s[i])) == LowerChar(s[i]);
  }

  /** A string with a lower-case ASCII letter in it is changed by `upper()`. */
  lemma UpperChangesLowerCase(s: string, k: nat)
    requires k < |s| && 'a' <= s[k] <= 'z'
    ensures Upper(s) != s
  {
    assert Upper(s)[k] != s[k];
  }

  function DigitChar(d: nat): (c: char)
    requires d < 10
    ensures IsDigit(c) && c as int - '0' as int == d
  {
    ('0' as int + d) as char
  }

  /** `str(n)` for a non-negative `n`: its decimal digits, without leading zeros. */
  function NatToString(n: nat): (r: string)
    ensures |r| > 0 && forall i :: 0 <= i < |r| ==> IsDigit(r[i])
    ensures |r| == 1 <==> n < 10
  {
    if n < 10 then [DigitChar(n)] else NatToString(n / 10) + [DigitChar(n % 10)]
  }

  /** `str(i)` for any integer `i`. */
  function IntToString(i: int): (r: string)
    ensures |r| > 0 && IsDigit(r[|r| - 1])
    ensures forall k :: 0 <= k < |r| ==> IsDigit(r[k]) || r[k] == '-'
    ensures r[0] == '-' <==> i < 0
  {
    if i < 0 then "-" + NatToString(-i) else NatToString(i)
  }

  /** The only integer printed as "1" is 1. */
  lemma IntToStringOne(i: int)
    ensures IntToString(i) == "1" <==> i == 1
  {
    if IntToString(i) == "1" {
      assert i >= 0 && i < 10;
      assert DigitChar(i) == '1';
    }
  }

  /** The digits of a decimal body, Python-style, where `_` separators are skipped. */
  function DigitsValue(d: string): nat
    requires forall i :: 0 <= i < |d| ==> IsDigit(d[i]) || d[i] == '_'
  {
    if d == [] then 0
    else if d[|d| - 1] == '_' then DigitsValue(d[..|d| - 1])
    else
      assert IsDigit(d[|d| - 1]);
      DigitsValue(d[..|d| - 1]) * 10 + (d[|d| - 1] as int - '0' as int)
  }

  /** What Python's `int()` accepts after the sign: digits, with single underscores between digits. */
  predicate IsDecimalBody(d: string) {
    && |d| > 0
    && IsDigit(d[0])
    && IsDigit(d[|d| - 1])
    && (forall i :: 0 <= i < |d| ==> IsDigit(d[i]) || d[i] == '_')
    && (forall i :: 0 <= i < |d| - 1 ==> d[i] == '_' ==> d[i + 1] != '_')
  }

  function ParseDigits(d: string): Option<nat> {
    if IsDecimalBody(d) then Some(DigitsValue(d)) else None
  }

  /** The leading white space `int()` skips. */
  function SkipLeading(s: string): string {
    if s != [] && IsIntSpace(s[0]) then SkipLeading(s[1..]) else s
  }

  /** The trailing white space `int()` skips. */
  function SkipTrailing(s: string): string {
    if s != [] && IsIntSpace(s[|s| - 1]) then SkipTrailing(s[..|s| - 1]) else s
  }

  /** The text `int()` reads as a numeral. */
  function IntStrip(s: string): string {
    SkipTrailing(SkipLeading(s))
  }

  lemma {:induction false} SkipLeadingFacts(s: string)
    ensures var r := SkipLeading(s);
            && |r| <= |s| && r == s[|s| - |r|..]
            && (forall i :: 0 <= i < |s| - |r| ==> IsIntSpace(s[i]))
            && (r == [] || !IsIntSpace(r[0]))
  {
    if s != [] && IsIntSpace(s[0]) {
      var t := s[1..];
      SkipLeadingFacts(t);
      var r := SkipLeading(t);
      assert SkipLeading(s) == r;
      forall i | 0 <= i < |s| - |r|
        ensures IsIntSpace(s[i])
      {
        if i > 0 {
          assert s[i] == t[i - 1];
        }
      }
      assert r == t[|t| - |r|..] == s[|s| - |r|..];
    }
  }

  lemma {:induction false} SkipTrailingFacts(s: string)
    ensures var r := SkipTrailing(s);
            && |r| <= |s| && r == s[..|r|]
            && (forall i :: |r| <= i < |s| ==> IsIntSpace(s[i]))
            && (r == [] || !IsIntSpace(r[|r| - 1]))
  {
    if s != [] && IsIntSpace(s[|s| - 1]) {
      SkipTrailingFacts(s[..|s| - 1]);
    }
  }

  /** `int(s)` in base 10; `None` where Python raises `ValueError`. */
  function ParseInt(s: string): Option<int> {
    var t := IntStrip(s);
    if t != [] && (t[0] == '+' || t[0] == '-') then
      match ParseDigits(t[1..])
      case None => None
      case Some(n) => Some(if t[0] == '-' then -(n as int) else n as int)
    else
      match ParseDigits(t)
      case None => None
      case Some(n) => Some(n)
  }

  lemma {:induction false} NatToStringValue(n: nat)
    ensures IsDecimalBody(NatToString(n)) && DigitsValue(NatToString(n)) == n
  {
    var r := NatToString(n);
    if n >= 10 {
      NatToStringValue(n / 10);
      assert r[..|r| - 1] == NatToString(n / 10);
    }
  }

  /** A numeral has no white space around it. */
  lemma NumeralStripped(i: int)
    ensures Strip(IntToString(i)) == IntToString(i)
    ensures IntStrip(IntToString(i)) == IntToString(i)
  {
    StripUnchanged(IntToString(i));
  }

  /** `int()` of an unsigned decimal numeral. */
  lemma ParseUnsigned(t: string)
    requires IsDecimalBody(t)
    ensures ParseInt(t) == Some(DigitsValue(t))
  {
    assert SkipLeading(t) == t && SkipTrailing(t) == t;
  }

  /** `int()` of a negative decimal numeral. */
  lemma ParseNegative(d: string)
    requires IsDecimalBody(d)
    ensures ParseInt("-" + d) == Some(-(DigitsValue(d) as int))
  {
    var t := "-" + d;
    assert t[1..] == d && t[|t| - 1] == d[|d| - 1];
    assert SkipLeading(t) == t && SkipTrailing(t) == t;
  }

  /** `int(str(i)) == i` */
  lemma IntRoundTrip(i: int)
    ensures ParseInt(IntToString(i)) == Some(i)
  {
    if i < 0 {
      NegativeRoundTrip(i);
    } else {
      NatToStringValue(i);
      ParseUnsigned(NatToString(i));
    }
  }

  lemma NegativeRoundTrip(i: int)
    requires i < 0
    ensures ParseInt(IntToString(i)) == Some(i)
  {
    NatToStringValue(-i);
    ParseNegative(NatToString(-i));
  }

  /** Where `int()` accepts a string, it reads the same numeral that `strip()`
      leaves, so stripping first changes nothing. */
  lemma ParseIntOfStripped(s: string)
    requires ParseInt(s).Some?
    ensures ParseInt(Strip(s)) == ParseInt(s)
  {
    var l := SkipLeading(s);
    var t := SkipTrailing(l);
    SkipLeadingFacts(s);
    SkipTrailingFacts(l);
    var a := |s| - |l|;
    assert t != [] && !IsSpace(t[0]) && !IsSpace(t[|t| - 1]);
    assert s[a..a + |t|] == t;
    TrimStartFacts(s);
    var r := TrimStart(s);
    assert s[a] == t[0];
    assert |s| - |r| == a;
    TrimEndFacts(r);
    var u := TrimEnd(r);
    assert r[|t| - 1] == t[|t| - 1];
    assert |u| == |t|;
    assert Strip(s) == t;
  }

  /** `int()` does not skip the separators 0x1c-0x1f that `strip()` removes:
      `int('\x1c5')` raises while `int('\x1c5'.strip())` is 5. */
  lemma IntKeepsSeparators()
    ensures ParseInt("\U{1c}5") == None
    ensures ParseInt(Strip("\U{1c}5")) == Some(5)
  {
    assert IntStrip("\U{1c}5") == "\U{1c}5";
    assert TrimStart("\U{1c}5") == TrimStart("5") == "5";
    assert Strip("\U{1c}5") == "5";
    assert IntStrip("5") == "5";
    assert DigitsValue("5") == DigitsValue("") * 10 + 5;
  }

  /** `int('0') == 0` */
  lemma ParseIntZero()
    ensures ParseInt("0") == Some(0)
  {
    assert IntStrip("0") == "0";
    assert IsDecimalBody("0");
    assert DigitsValue("0") == DigitsValue("") * 10 + 0;
  }

  /** `int()` refuses a string that is empty or all white space. */
  lemma ParseIntBlank(s: string)
    requires forall i :: 0 <= i < |s| ==> IsSpace(s[i])
    ensures ParseInt(s) == None
  {
    var l := SkipLeading(s);
    var t := SkipTrailing(l);
    SkipLeadingFacts(s);
    SkipTrailingFacts(l);
    if t != [] {
      assert t[0] == s[|s| - |l|];
    }
  }
}
