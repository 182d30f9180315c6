/** String helpers the chat relies on: JavaScript's String.prototype.trim and
    the decimal rendering of a count inside a template literal. */
module Text {

  /** The characters String.prototype.trim removes: ECMAScript WhiteSpace
      (tab, vertical tab, form feed, space, no-break space, byte order mark and
      the Unicode space separators) and LineTerminator (LF, CR, U+2028, U+2029). */
  predicate IsWhitespace(c: char) {
    var n := c as int;
    n == 0x09 || n == 0x0A || n == 0x0B || n == 0x0C || n == 0x0D || n == 0x20 ||
    n == 0xA0 || n == 0x1680 || (0x2000 <= n <= 0x200A) || n == 0x2028 ||
    n == 0x2029 || n == 0x202F || n == 0x205F || n == 0x3000 || n == 0xFEFF
  }

  /** Every character of `s` from index `lo` up to `hi` is whitespace. */
  predicate BlankBetween(s: string, lo: int, hi: int)
    requires 0 <= lo <= hi <= |s|
  {
    forall j :: lo <= j < hi ==> IsWhitespace(s[j])
  }

  /** The first index at or after `i` that does not hold whitespace. */
  function SkipForward(s: string, i: nat): (k: nat)
    requires i <= |s|
    ensures i <= k <= |s| && BlankBetween(s, i, k)
    ensures k < |s| ==> !IsWhitespace(s[k])
    decreases |s| - i
  {
    if i < |s| && IsWhitespace(s[i]) then SkipForward(s, i + 1) else i
  }

  /** The end of `s[lo..j]` once its trailing whitespace is dropped. */
  function SkipBackward(s: string, lo: nat, j: nat): (k: nat)
    requires lo <= j <= |s|
    ensures lo <= k <= j && BlankBetween(s, k, j)
    ensures lo < k ==> !IsWhitespace(s[k - 1])
  {
    if lo < j && IsWhitespace(s[j - 1]) then SkipBackward(s, lo, j - 1) else j
  }

  /** String.prototype.trim: the slice of `s` between its leading and its
      trailing whitespace, which neither starts nor ends with whitespace. */
  function Trim(s: string): (r: string)
    ensures exists i :: 0 <= i <= |s| - |r| && r == s[i..i + |r|]
                        && BlankBetween(s, 0, i) && BlankBetween(s, i + |r|, |s|)
    ensures r != [] ==> !IsWhitespace(r[0]) && !IsWhitespace(r[|r| - 1])
  {
    var a := SkipForward(s, 0);
    var b := SkipBackward(s, a, |s|);
    assert b - a == |s[a..b]|;
    s[a..b]
  }

  /** A trimmed string is empty exactly when the input held only whitespace,
      so `if (!nickname)` after trim() rejects blank input and nothing else. */
  lemma {:induction false} TrimEmptyIffBlank(s: string)
    ensures Trim(s) == [] <==> BlankBetween(s, 0, |s|)
  {
    var r := Trim(s);
    var i :| 0 <= i <= |s| - |r| && r == s[i..i + |r|]
             && BlankBetween(s, 0, i) && BlankBetween(s, i + |r|, |s|);
    if r != [] {
      assert r[0] == s[i];
    }
  }

  predicate IsDigit(c: char) {
    '0' <= c <= '9'
  }

  function DigitChar(d: nat): (c: char)
    requires d < 10
    ensures IsDigit(c) && DigitOf(c) == d
  {
    (('0' as int) + d) as char
  }

  /** The decimal text of a non-negative number, as a template literal prints it. */
  function DecimalString(n: nat): (r: string)
    ensures r != [] && forall i :: 0 <= i < |r| ==> IsDigit(r[i])
    ensures r[0] == '0' ==> n == 0
  {
    if n < 10 then [DigitChar(n)] else DecimalString(n / 10) + [DigitChar(n % 10)]
  }

  /** The number a string of decimal digits denotes. */
  function DigitsValue(s: string): nat
    requires forall i :: 0 <= i < |s| ==> IsDigit(s[i])
  {
    if s == [] then 0
    else DigitsValue(s[..|s| - 1]) * 10 + DigitOf(s[|s| - 1])
  }

  function DigitOf(c: char): (d: nat)
    requires IsDigit(c)
    ensures d < 10
  {
    (c as int) - ('0' as int)
  }

  /** The longest prefix of `s` made of decimal digits. */
  function LeadingDigits(s: string): (r: string)
    ensures |r| <= |s| && r == s[..|r|]
    ensures forall i :: 0 <= i < |r| ==> IsDigit(r[i])
    ensures |r| < |s| ==> !IsDigit(s[|r|])
  {
    if s != [] && IsDigit(s[0]) then [s[0]] + LeadingDigits(s[1..]) else []
  }

  /** Reading the decimal text back gives the number. */
  lemma {:induction false} DecimalRoundTrip(n: nat)
    ensures DigitsValue(DecimalString(n)) == n
  {
    if n >= 10 {
      var s := DecimalString(n);
      assert s[..|s| - 1] == DecimalString(n / 10);
      DecimalRoundTrip(n / 10);
    }
  }

  /** The digits of a number followed by text that starts with a non-digit are
      recovered as the leading digits. */
  lemma {:induction false} LeadingDigitsOfConcat(d: string, rest: string)
    requires forall i :: 0 <= i < |d| ==> IsDigit(d[i])
    requires rest == [] || !IsDigit(rest[0])
    ensures LeadingDigits(d + rest) == d
  {
    if d != [] {
      assert (d + rest)[1..] == d[1..] + rest;
      LeadingDigitsOfConcat(d[1..], rest);
    } else {
      assert d + rest == rest;
    }
  }
}
