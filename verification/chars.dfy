/** Character classes of Python's `re` and `str` methods, restricted to ASCII. */
module Chars {

  predicate IsAscii(c: char) {
    c < 128 as char
  }

  predicate IsAsciiString(s: string) {
    forall i :: 0 <= i < |s| ==> IsAscii(s[i])
  }

  /** `\d` on an ASCII character. */
  predicate IsDigit(c: char) {
    '0' <= c <= '9'
  }

  /** `\s` and `str.isspace` on an ASCII character: space, `\t\n\v\f\r` and the
      four information separators `\x1c`..`\x1f`. */
  predicate IsSpace(c: char) {
    c == ' ' || '\t' <= c <= '\r' || 28 as char <= c <= 31 as char
  }

  predicate IsUpper(c: char) {
    'A' <= c <= 'Z'
  }

  predicate IsLower(c: char) {
    'a' <= c <= 'z'
  }

  /** `str.isalpha` on an ASCII character. */
  predicate IsLetter(c: char) {
    IsUpper(c) || IsLower(c)
  }

  predicate AllDigits(s: string)
    ensures AllDigits(s) ==> IsAsciiString(s)
  {
    forall i :: 0 <= i < |s| ==> IsDigit(s[i])
  }

  predicate AllSpaces(s: string)
    ensures AllSpaces(s) ==> IsAsciiString(s)
  {
    forall i :: 0 <= i < |s| ==> IsSpace(s[i])
  }

  function DigitValue(c: char): (r: nat)
    requires IsDigit(c)
    ensures r < 10
  {
    (c as int - '0' as int) as nat
  }

  /** Python's `int(...)` on a string of decimal digits (leading zeros allowed). */
  function DigitsValue(s: string): (r: nat)
    requires AllDigits(s)
    ensures r < Pow10(|s|)
  {
    if |s| == 0 then 0
    else DigitsValue(s[..|s| - 1]) * 10 + DigitValue(s[|s| - 1])
  }

  function Pow10(n: nat): (r: nat)
    ensures r >= 1
  {
    if n == 0 then 1 else 10 * Pow10(n - 1)
  }

  /** Splits `s` into its longest all-digit prefix and the rest. */
  function DigitRun(s: string): (r: (string, string))
    ensures r.0 + r.1 == s
    ensures AllDigits(r.0)
    ensures r.1 == [] || !IsDigit(r.1[0])
  {
    if |s| == 0 || !IsDigit(s[0]) then ([], s)
    else
      var (d, rest) := DigitRun(s[1..]);
      assert s == [s[0]] + s[1..];
      AppendAssoc([s[0]], d, rest);
      ([s[0]] + d, rest)
  }

  /** Splits `s` into its longest all-whitespace prefix and the rest. */
  function SpaceRun(s: string): (r: (string, string))
    ensures r.0 + r.1 == s
    ensures AllSpaces(r.0)
    ensures r.1 == [] || !IsSpace(r.1[0])
  {
    if |s| == 0 || !IsSpace(s[0]) then ([], s)
    else
      var (w, rest) := SpaceRun(s[1..]);
      assert s == [s[0]] + s[1..];
      AppendAssoc([s[0]], w, rest);
      ([s[0]] + w, rest)
  }

  /** Splits `s` into its longest prefix free of whitespace and the rest. */
  function NonSpaceRun(s: string): (r: (string, string))
    ensures r.0 + r.1 == s
    ensures forall i :: 0 <= i < |r.0| ==> !IsSpace(r.0[i])
    ensures r.1 == [] || IsSpace(r.1[0])
  {
    if |s| == 0 || IsSpace(s[0]) then ([], s)
    else
      var (w, rest) := NonSpaceRun(s[1..]);
      assert s == [s[0]] + s[1..];
      AppendAssoc([s[0]], w, rest);
      ([s[0]] + w, rest)
  }

  /** At most `n` digits spell a number below `10^n`. */
  lemma {:induction false} DigitsBelow(s: string, n: nat)
    ensures AllDigits(s) && |s| <= n ==> DigitsValue(s) < Pow10(n)
    decreases n
  {
    if AllDigits(s) && |s| < n {
      DigitsBelow(s, n - 1);
    }
  }

  lemma AsciiAppend(a: string, b: string)
    requires IsAsciiString(a) && IsAsciiString(b)
    ensures IsAsciiString(a + b)
  {
  }

  lemma AppendAssoc<T>(a: seq<T>, b: seq<T>, c: seq<T>)
    ensures (a + b) + c == a + (b + c)
  {
  }

  /** A digit run followed by a non-digit is exactly what `DigitRun` finds. */
  lemma {:induction false} DigitRunOf(d: string, rest: string)
    requires AllDigits(d)
    requires rest == [] || !IsDigit(rest[0])
    ensures DigitRun(d + rest) == (d, rest)
  {
    if |d| > 0 {
      assert (d + rest)[0] == d[0] && IsDigit(d[0]);
      assert (d + rest)[1..] == d[1..] + rest;
      DigitRunOf(d[1..], rest);
      assert [d[0]] + d[1..] == d;
    } else {
      assert d + rest == rest;
    }
  }

  /** A whitespace run followed by a non-space is exactly what `SpaceRun` finds. */
  lemma {:induction false} SpaceRunOf(w: string, rest: string)
    requires AllSpaces(w)
    requires rest == [] || !IsSpace(rest[0])
    ensures SpaceRun(w + rest) == (w, rest)
  {
    if |w| > 0 {
      assert (w + rest)[0] == w[0] && IsSpace(w[0]);
      assert (w + rest)[1..] == w[1..] + rest;
      SpaceRunOf(w[1..], rest);
      assert [w[0]] + w[1..] == w;
    } else {
      assert w + rest == rest;
    }
  }

  /** A whitespace-free run followed by whitespace is exactly what `NonSpaceRun` finds. */
  lemma {:induction false} NonSpaceRunOf(w: string, rest: string)
    requires forall i :: 0 <= i < |w| ==> !IsSpace(w[i])
    requires rest == [] || IsSpace(rest[0])
    ensures NonSpaceRun(w + rest) == (w, rest)
  {
    if |w| > 0 {
      assert (w + rest)[0] == w[0];
      assert (w + rest)[1..] == w[1..] + rest;
      NonSpaceRunOf(w[1..], rest);
      assert [w[0]] + w[1..] == w;
    } else {
      assert w + rest == rest;
    }
  }

  /** Python's `str.upper` on an ASCII character. */
  function Upper(c: char): (u: char)
    ensures IsLower(c) ==> IsUpper(u) && u as int == c as int - 32
    ensures !IsLower(c) ==> u == c
  {
    if IsLower(c) then (c as int - 32) as char else c
  }

  /** Python's `str.upper` on an ASCII string. */
  function UpperString(s: string): (u: string)
    ensures |u| == |s|
    ensures forall i :: 0 <= i < |s| ==> u[i] == Upper(s[i])
  {
    seq(|s|, i requires 0 <= i < |s| => Upper(s[i]))
  }
}
