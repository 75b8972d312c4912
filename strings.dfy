/**
 Character classes and decimal text as the Java library calls in the
 generators produce them: `String.valueOf(int)`, `String.format("%0Nd", n)`,
 Guava's `Splitter.on(',')`, commons-lang's `StringUtils.isNotBlank`, and the
 alphabets of `RandomStringUtils`.
 */
module Strings {

  predicate IsDigit(c: char) { '0' <= c <= '9' }
  predicate IsAsciiUpper(c: char) { 'A' <= c <= 'Z' }
  predicate IsAsciiLower(c: char) { 'a' <= c <= 'z' }
  /** The alphabet of `RandomStringUtils.randomAlphabetic`. */
  predicate IsAsciiLetter(c: char) { IsAsciiUpper(c) || IsAsciiLower(c) }
  /** The alphabet of `RandomStringUtils.randomAlphanumeric`. */
  predicate IsAlphanumeric(c: char) { IsAsciiLetter(c) || IsDigit(c) }

  predicate AllDigits(s: string) { forall i :: 0 <= i < |s| ==> IsDigit(s[i]) }

  /** Digits joined to digits are digits. */
  lemma AllDigitsAppend(a: string, b: string)
    requires AllDigits(a) && AllDigits(b)
    ensures AllDigits(a + b)
  {
    assert forall i :: 0 <= i < |a + b| ==> (a + b)[i] == (if i < |a| then a[i] else b[i - |a|]);
  }

  function DigitChar(d: int): (c: char)
    requires 0 <= d <= 9
    ensures IsDigit(c) && DigitValue(c) == d
  {
    ('0' as int + d) as char
  }

  /** The digit characters a sequence of draws from `[0, 10)` spells. */
  function DigitString(draws: seq<int>): (s: string)
    requires forall i :: 0 <= i < |draws| ==> 0 <= draws[i] < 10
    ensures |s| == |draws| && forall i :: 0 <= i < |s| ==> s[i] == DigitChar(draws[i])
    ensures AllDigits(s)
  {
    if draws == [] then [] else DigitString(draws[..|draws| - 1]) + [DigitChar(draws[|draws| - 1])]
  }

  /** One more draw appends one more digit. */
  lemma DigitStringStep(draws: seq<int>, i: int)
    requires 0 <= i < |draws| && forall k :: 0 <= k < |draws| ==> 0 <= draws[k] < 10
    ensures DigitString(draws[..i + 1]) == DigitString(draws[..i]) + [DigitChar(draws[i])]
  {
    assert draws[..i + 1][..i] == draws[..i];
  }

  function DigitValue(c: char): int
    requires IsDigit(c)
  {
    c as int - '0' as int
  }

  /** `String.toUpperCase` restricted to the ASCII letters it is applied to. */
  function ToUpper(c: char): (u: char)
    requires IsAsciiLetter(c)
    ensures IsAsciiUpper(u)
    ensures IsAsciiUpper(c) ==> u == c
  {
    if IsAsciiLower(c) then (c as int - 32) as char else c
  }

  /** `String.toLowerCase` restricted to the ASCII letters it is applied to. */
  function ToLower(c: char): (l: char)
    requires IsAsciiLetter(c)
    ensures IsAsciiLower(l)
    ensures IsAsciiLower(c) ==> l == c
  {
    if IsAsciiUpper(c) then (c as int + 32) as char else c
  }

  /** `Character.isWhitespace`: the Unicode space, line and paragraph
      separators except the three no-break spaces, and the ASCII controls
      U+0009..U+000D and U+001C..U+001F. */
  predicate IsJavaWhitespace(c: char) {
    || ('\U{9}' <= c <= '\U{D}')
    || ('\U{1C}' <= c <= '\U{1F}')
    || c == ' '
    || c == '\U{1680}'
    || ('\U{2000}' <= c <= '\U{2006}')
    || ('\U{2008}' <= c <= '\U{200A}')
    || c == '\U{2028}' || c == '\U{2029}'
    || c == '\U{205F}' || c == '\U{3000}'
  }

  /** `StringUtils.isBlank` of a non-null string: empty or whitespace only. */
  predicate IsBlank(s: string) { forall i :: 0 <= i < |s| ==> IsJavaWhitespace(s[i]) }

  predicate StartsWith(s: string, p: string) { |p| <= |s| && s[..|p|] == p }

  /** The number a string of decimal digits denotes (most significant first). */
  function DecimalValue(s: string): (n: nat)
    requires AllDigits(s)
  {
    if s == [] then 0 else 10 * DecimalValue(s[..|s| - 1]) + DigitValue(s[|s| - 1])
  }

  /** `String.valueOf(n)` for a non-negative `n`. */
  function NatToString(n: nat): (s: string)
    ensures |s| >= 1 && AllDigits(s)
    ensures DecimalValue(s) == n
    decreases n
  {
    if n < 10 then [DigitChar(n)]
    else
      var s := NatToString(n / 10) + [DigitChar(n % 10)];
      assert s[..|s| - 1] == NatToString(n / 10);
      s
  }

  function Pow10(k: nat): (p: nat)
    ensures p >= 1
  {
    if k == 0 then 1 else 10 * Pow10(k - 1)
  }

  /** A number with `k` digits is written with exactly `k` characters. */
  lemma {:induction false} NatToStringLength(n: nat, k: nat)
    requires k >= 1 && Pow10(k - 1) <= n < Pow10(k)
    ensures |NatToString(n)| == k
  {
    if k > 1 {
      assert Pow10(k - 1) == 10 * Pow10(k - 2);
      NatToStringLength(n / 10, k - 1);
    }
  }

  function Zeros(k: int): (z: string)
    ensures |z| == if k > 0 then k else 0
    ensures forall i :: 0 <= i < |z| ==> z[i] == '0'
  {
    if k <= 0 then [] else Zeros(k - 1) + ['0']
  }

  /** `String.format("%0" + width + "d", n)` for a non-negative `n`: the
      decimal digits of `n`, left-padded with zeros to `width`; a wider
      number is not truncated. */
  function ZeroPad(n: nat, width: int): (s: string)
  {
    Zeros(width - |NatToString(n)|) + NatToString(n)
  }

  lemma {:induction false} ZerosValue(z: string, s: string)
    requires forall i :: 0 <= i < |z| ==> z[i] == '0'
    requires AllDigits(s)
    ensures AllDigits(z + s) && DecimalValue(z + s) == DecimalValue(s)
    decreases |s|, |z|
  {
    if s == [] {
      assert z + s == z;
      if z != [] {
        ZerosValue(z[..|z| - 1], []);
        assert z[..|z| - 1] + [] == z[..|z| - 1];
      }
    } else {
      var t := s[..|s| - 1];
      ZerosValue(z, t);
      assert (z + s)[..|z + s| - 1] == z + t;
    }
  }

  /** The padded text has the requested width when the number fits, and it
      still denotes the number. */
  lemma ZeroPadValue(n: nat, width: int)
    ensures AllDigits(ZeroPad(n, width))
    ensures DecimalValue(ZeroPad(n, width)) == n
    ensures |ZeroPad(n, width)| == if width > |NatToString(n)| then width else |NatToString(n)|
  {
    ZerosValue(Zeros(width - |NatToString(n)|), NatToString(n));
  }

  /** Guava `Splitter.on(sep).splitToList(s)`: every separator ends a field,
      empty fields are kept, and the empty string is one empty field. */
  function Split(s: string, sep: char): (parts: seq<string>)
    ensures |parts| >= 1
    ensures forall i :: 0 <= i < |parts| ==> sep !in parts[i]
  {
    if s == [] then [[]]
    else
      var rest := Split(s[1..], sep);
      if s[0] == sep then [[]] + rest
      else [[s[0]] + rest[0]] + rest[1..]
  }

  /** Guava `Joiner.on(sep).join(parts)`. */
  function Join(parts: seq<string>, sep: char): string
    requires |parts| >= 1
  {
    if |parts| == 1 then parts[0] else parts[0] + [sep] + Join(parts[1..], sep)
  }

  /** Splitting loses nothing: joining the fields back gives the line. */
  lemma {:induction false} SplitJoin(s: string, sep: char)
    ensures Join(Split(s, sep), sep) == s
  {
    if s != [] {
      var rest := Split(s[1..], sep);
      SplitJoin(s[1..], sep);
      if s[0] == sep {
        assert ([[]] + rest)[1..] == rest;
      } else if |rest| > 1 {
        var parts := [[s[0]] + rest[0]] + rest[1..];
        assert parts[1..] == rest[1..];
        assert Join(rest, sep) == rest[0] + [sep] + Join(rest[1..], sep);
      }
    }
  }
}
