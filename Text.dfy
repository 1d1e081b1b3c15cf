/** String operations the converter relies on: Python's `str.replace('\\', '/')`,
    substring search, `str.startswith`, decimal formatting of transaction ids
    and the `int()` conversion of a configured transaction number. */
module Text {
  import opened Base

  /** `s.replace('\\', '/')`: every backslash becomes a forward slash. */
  function Slashed(s: string): string {
    seq(|s|, i requires 0 <= i < |s| => if s[i] == '\\' then '/' else s[i])
  }

  predicate NoBackslash(s: string) {
    forall i :: 0 <= i < |s| ==> s[i] != '\\'
  }

  /** A path without backslashes is left as it is. */
  lemma SlashedKeepsPlainPaths(s: string)
    requires NoBackslash(s)
    ensures Slashed(s) == s
  {
  }

  /** Normalising twice is normalising once, and leaves no backslash. */
  lemma SlashedIdempotent(s: string)
    ensures NoBackslash(Slashed(s))
    ensures Slashed(Slashed(s)) == Slashed(s)
  {
  }

  predicate StartsWith(s: string, prefix: string) {
    |prefix| <= |s| && s[..|prefix|] == prefix
  }

  /** `s.find(pat) >= 0`, or Python's `pat in s`. */
  predicate Contains(s: string, pat: string)
    decreases |s|
  {
    StartsWith(s, pat) || (|s| > 0 && Contains(s[1..], pat))
  }

  predicate IsDigit(c: char) {
    '0' <= c <= '9'
  }

  predicate AllDigits(s: string) {
    forall i :: 0 <= i < |s| ==> IsDigit(s[i])
  }

  function DigitValue(c: char): nat
    requires IsDigit(c)
  {
    (c as int) - ('0' as int)
  }

  function DigitChar(d: nat): (c: char)
    requires d < 10
    ensures IsDigit(c) && DigitValue(c) == d
  {
    (('0' as int) + d) as char
  }

  /** The value of a string of decimal digits, as `int()` reads it. */
  function DigitsValue(s: string): nat
    requires AllDigits(s)
  {
    if |s| == 0 then 0 else DigitsValue(s[..|s| - 1]) * 10 + DigitValue(s[|s| - 1])
  }

  /** `"{0}".format(n)` for a natural number: its decimal digits, no leading zero. */
  function NatToString(n: nat): (s: string)
    ensures |s| > 0 && AllDigits(s)
    ensures |s| > 1 ==> s[0] != '0'
  {
    if n < 10 then [DigitChar(n)] else NatToString(n / 10) + [DigitChar(n % 10)]
  }

  /** Reading back the decimal form of `n` gives `n`. */
  lemma {:induction false} NatToStringRoundTrip(n: nat)
    ensures DigitsValue(NatToString(n)) == n
  {
    if n >= 10 {
      NatToStringRoundTrip(n / 10);
      var s := NatToString(n);
      assert s[..|s| - 1] == NatToString(n / 10);
    }
  }

  /** The longest prefix of `s` made of digits (what a greedy `[0-9]+` takes). */
  function LeadingDigits(s: string): (d: string)
    ensures AllDigits(d) && StartsWith(s, d)
    ensures |d| < |s| ==> !IsDigit(s[|d|])
  {
    if |s| > 0 && IsDigit(s[0]) then [s[0]] + LeadingDigits(s[1..]) else ""
  }

  lemma {:induction false} LeadingDigitsOfDigitsThen(d: string, rest: string)
    requires AllDigits(d)
    requires |rest| > 0 && !IsDigit(rest[0])
    ensures LeadingDigits(d + rest) == d
  {
    if |d| > 0 {
      assert (d + rest)[1..] == d[1..] + rest;
      LeadingDigitsOfDigitsThen(d[1..], rest);
    }
  }

  /** The whitespace Python's `str.strip()` removes from an ASCII string. */
  predicate IsSpace(c: char) {
    c == ' ' || c == '\t' || c == '\n' || c == '\r' || (c as int) == 11 || (c as int) == 12
  }

  function TrimStart(s: string): string {
    if |s| > 0 && IsSpace(s[0]) then TrimStart(s[1..]) else s
  }

  function TrimEnd(s: string): string {
    if |s| > 0 && IsSpace(s[|s| - 1]) then TrimEnd(s[..|s| - 1]) else s
  }

  /** Trimming the start keeps a suffix that does not start with a blank. */
  lemma {:induction false} TrimStartIsSuffix(s: string)
    ensures var r := TrimStart(s); |r| <= |s| && s[|s| - |r|..] == r && (|r| > 0 ==> !IsSpace(r[0]))
    decreases |s|
  {
    if |s| > 0 && IsSpace(s[0]) {
      TrimStartIsSuffix(s[1..]);
      assert s[1..][|s| - 1 - |TrimStart(s)|..] == s[|s| - |TrimStart(s)|..];
    }
  }

  /** Trimming the end keeps a prefix that does not end with a blank. */
  lemma {:induction false} TrimEndIsPrefix(s: string)
    ensures var r := TrimEnd(s); |r| <= |s| && s[..|r|] == r && (|r| > 0 ==> !IsSpace(r[|r| - 1]))
    decreases |s|
  {
    if |s| > 0 && IsSpace(s[|s| - 1]) {
      TrimEndIsPrefix(s[..|s| - 1]);
      assert s[..|s| - 1][..|TrimEnd(s)|] == s[..|TrimEnd(s)|];
    }
  }

  /** Python 2's `int(s)` on a string: surrounding whitespace, an optional sign
      (which may itself be followed by whitespace, as `PyOS_strtoul` skips it
      again), then one or more decimal digits; anything else raises (here:
      None). */
  function ParseInt(s: string): (r: Option<int>)
    ensures r.Some? ==> exists i :: 0 <= i < |s| && IsDigit(s[i])
  {
    var t := TrimEnd(TrimStart(s));
    var negative := |t| > 0 && t[0] == '-';
    var body := if |t| > 0 && (t[0] == '-' || t[0] == '+') then TrimStart(t[1..]) else t;
    if |body| > 0 && AllDigits(body) then
      TrimStartIsSuffix(s);
      TrimEndIsPrefix(TrimStart(s));
      TrimStartIsSuffix(t[1..]);
      assert body[|body| - 1] == t[|t| - 1];
      assert IsDigit(t[|t| - 1]);
      assert TrimStart(s) == s[|s| - |TrimStart(s)|..];
      assert t[|t| - 1] == s[|s| - |TrimStart(s)| + |t| - 1];
      Some(if negative then -(DigitsValue(body) as int) else DigitsValue(body))
    else None
  }

  /** A decimal number written back by `"{0}".format(n)` is read by `int()` as `n`. */
  lemma ParseIntOfNatToString(n: nat)
    ensures ParseInt(NatToString(n)) == Some(n)
  {
    var s := NatToString(n);
    assert TrimStart(s) == s;
    assert TrimEnd(s) == s;
    NatToStringRoundTrip(n);
  }

  /** Blanks before a string that does not start with one are all skipped. */
  lemma {:induction false} TrimStartSkipsBlanks(blanks: string, s: string)
    requires forall i :: 0 <= i < |blanks| ==> IsSpace(blanks[i])
    requires |s| > 0 && !IsSpace(s[0])
    ensures TrimStart(blanks + s) == s
    decreases |blanks|
  {
    if |blanks| > 0 {
      assert (blanks + s)[1..] == blanks[1..] + s;
      TrimStartSkipsBlanks(blanks[1..], s);
    } else {
      assert blanks + s == s;
    }
  }

  /** Text that starts with a sign has no leading blank to trim. */
  lemma SignedTextTrimStart(sign: char, blanks: string, d: string)
    requires sign == '-' || sign == '+'
    ensures TrimStart([sign] + blanks + d) == [sign] + blanks + d
  {
    assert ([sign] + blanks + d)[0] == sign;
  }

  /** Text that ends with a digit has no trailing blank to trim. */
  lemma DigitsTextTrimEnd(head: string, d: string)
    requires |d| > 0 && AllDigits(d)
    ensures TrimEnd(head + d) == head + d
  {
    assert (head + d)[|head + d| - 1] == d[|d| - 1];
  }

  /** On trimmed text `m` with a sign whose rest trims to digits `d`, `int()`
      reads the digits' value, negated for `-`. */
  lemma ParseIntReadsSigned(sign: char, m: string, d: string)
    requires sign == '-' || sign == '+'
    requires |d| > 0 && AllDigits(d)
    requires |m| > 0 && m[0] == sign
    requires TrimStart(m) == m && TrimEnd(m) == m && TrimStart(m[1..]) == d
    ensures ParseInt(m) == Some(if sign == '-' then -(DigitsValue(d) as int) else DigitsValue(d))
  {
    var t := TrimEnd(TrimStart(m));
    assert t == m;
    var body := if |t| > 0 && (t[0] == '-' || t[0] == '+') then TrimStart(t[1..]) else t;
    assert body == d;
  }

  /** A sign, then blanks, then digits is trimmed text whose rest after the
      sign trims to the digits. */
  lemma SignedTextShape(sign: char, blanks: string, d: string)
    requires sign == '-' || sign == '+'
    requires forall i :: 0 <= i < |blanks| ==> IsSpace(blanks[i])
    requires |d| > 0 && AllDigits(d)
    ensures var m := [sign] + blanks + d;
      |m| > 0 && m[0] == sign && TrimStart(m) == m && TrimEnd(m) == m && TrimStart(m[1..]) == d
  {
    var m := [sign] + blanks + d;
    SignedTextTrimStart(sign, blanks, d);
    DigitsTextTrimEnd([sign] + blanks, d);
    TrimStartSkipsBlanks(blanks, d);
    assert m == [sign] + (blanks + d);
    assert m[1..] == blanks + d;
  }

  /** A sign, then blanks, then digits: `int()` reads the digits' value,
      negated for `-`. */
  lemma ParseIntOfSigned(sign: char, blanks: string, d: string)
    requires sign == '-' || sign == '+'
    requires forall i :: 0 <= i < |blanks| ==> IsSpace(blanks[i])
    requires |d| > 0 && AllDigits(d)
    ensures ParseInt([sign] + blanks + d) ==
      Some(if sign == '-' then -(DigitsValue(d) as int) else DigitsValue(d))
  {
    SignedTextShape(sign, blanks, d);
    ParseIntReadsSigned(sign, [sign] + blanks + d, d);
  }

  /** A sign, then blanks, then the decimal text of `n` is read by `int()` as
      `-n` or `n`. */
  lemma ParseIntOfSignedNatToString(sign: char, blanks: string, n: nat)
    requires sign == '-' || sign == '+'
    requires forall i :: 0 <= i < |blanks| ==> IsSpace(blanks[i])
    ensures var r := ParseInt([sign] + blanks + NatToString(n));
      r.Some? && r.value == if sign == '-' then -(n as int) else n
  {
    NatToStringRoundTrip(n);
    ParseIntOfSigned(sign, blanks, NatToString(n));
  }
}
