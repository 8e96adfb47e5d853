/**
 * The two C library conversions the tagged codec relies on: printing an
 * `int` with the `%d` conversion and reading it back with `atoi`.
 */
module Decimal {

  predicate IsDigit(c: char) {
    '0' <= c <= '9'
  }

  predicate AllDigits(s: string) {
    forall i :: 0 <= i < |s| ==> IsDigit(s[i])
  }

  /** The characters `isspace` accepts in the "C" locale. */
  predicate IsSpace(c: char) {
    c == ' ' || c == '\t' || c == '\n' || c == '\U{B}' || c == '\U{C}' || c == '\r'
  }

  function DigitChar(d: nat): (c: char)
    requires d < 10
    ensures IsDigit(c) && c as int - '0' as int == d
  {
    ('0' as int + d) as char
  }

  /** The decimal digits of `n`, most significant first, without leading zeros. */
  function DigitsOf(n: nat): (s: string)
    ensures |s| >= 1 && AllDigits(s)
    ensures n > 0 ==> s[0] != '0'
    ensures n == 0 ==> s == "0"
    decreases n
  {
    if n < 10 then [DigitChar(n)] else DigitsOf(n / 10) + [DigitChar(n % 10)]
  }

  /** `printf("%d", n)`: an optional minus sign followed by the digits of `|n|`. */
  function FormatInt(n: int): (s: string)
    ensures |s| >= 1
    ensures s[0] == '-' <==> n < 0
    ensures n >= 0 ==> AllDigits(s)
    ensures n < 0 ==> AllDigits(s[1..]) && |s| >= 2
    ensures n == 0 ==> s == "0"
    ensures n > 0 ==> s[0] != '0'
    ensures n < 0 ==> s[1] != '0'
  {
    if n < 0 then "-" + DigitsOf(-n) else DigitsOf(n)
  }

  /** The value of a string of decimal digits, read left to right. */
  function DigitsValue(d: string): (v: nat)
    requires AllDigits(d)
  {
    if d == [] then 0 else DigitsValue(d[..|d| - 1]) * 10 + (d[|d| - 1] as int - '0' as int)
  }

  /** The whitespace `atoi` discards before the number. */
  function SkipSpace(s: string): (t: string)
    ensures |t| <= |s| && t == s[|s| - |t|..]
    ensures t == [] || !IsSpace(t[0])
    ensures forall i :: 0 <= i < |s| - |t| ==> IsSpace(s[i])
  {
    if s != [] && IsSpace(s[0]) then SkipSpace(s[1..]) else s
  }

  /** The longest prefix of `s` made of decimal digits: where `atoi` stops reading. */
  function LeadingDigits(s: string): (d: string)
    ensures d <= s && AllDigits(d)
    ensures |d| < |s| ==> !IsDigit(s[|d|])
  {
    if s != [] && IsDigit(s[0]) then [s[0]] + LeadingDigits(s[1..]) else []
  }

  /**
   * C `atoi`: skips leading whitespace, takes an optional sign, then as many
   * digits as follow; no digits at all gives 0. (Overflow, undefined in C,
   * cannot arise from text that `FormatInt` of a C `int` produced.)
   */
  function Atoi(s: string): (n: int)
    ensures var t := SkipSpace(s);
      t == [] || (!IsDigit(t[0]) && t[0] != '-' && t[0] != '+') ==> n == 0
    ensures n < 0 ==> SkipSpace(s) != [] && SkipSpace(s)[0] == '-'
  {
    var t := SkipSpace(s);
    if t != [] && t[0] == '-' then -(DigitsValue(LeadingDigits(t[1..])) as int)
    else if t != [] && t[0] == '+' then DigitsValue(LeadingDigits(t[1..]))
    else DigitsValue(LeadingDigits(t))
  }

  /** Reading back the digits of `n` gives `n`. */
  lemma {:induction false} DigitsValueOfDigits(n: nat)
    ensures DigitsValue(DigitsOf(n)) == n
    decreases n
  {
    if n >= 10 {
      var s := DigitsOf(n);
      assert s[..|s| - 1] == DigitsOf(n / 10);
      DigitsValueOfDigits(n / 10);
    }
  }

  /** `LeadingDigits` stops exactly at the end of a digit string followed by a non-digit. */
  lemma {:induction false} LeadingDigitsOfDigits(d: string, rest: string)
    requires AllDigits(d)
    requires rest == [] || !IsDigit(rest[0])
    ensures LeadingDigits(d + rest) == d
  {
    if d != [] {
      assert (d + rest)[1..] == d[1..] + rest;
      LeadingDigitsOfDigits(d[1..], rest);
    } else {
      assert d + rest == rest;
    }
  }

  /** `atoi` of a negative number's text: a minus sign, digits, then a non-digit. */
  lemma AtoiOfNegative(d: string, rest: string)
    requires |d| >= 1 && AllDigits(d)
    requires rest == [] || !IsDigit(rest[0])
    ensures Atoi(['-'] + (d + rest)) == -(DigitsValue(d) as int)
  {
    var s := ['-'] + (d + rest);
    SkipSpaceAtNonSpace(s);
    assert s[1..] == d + rest;
    LeadingDigitsOfDigits(d, rest);
  }

  lemma SkipSpaceAtNonSpace(s: string)
    requires s != [] && !IsSpace(s[0])
    ensures SkipSpace(s) == s
  {
  }

  /** `atoi` of a non-negative number's text: digits, then a non-digit. */
  lemma AtoiOfNonNegative(d: string, rest: string)
    requires |d| >= 1 && AllDigits(d)
    requires rest == [] || !IsDigit(rest[0])
    ensures Atoi(d + rest) == DigitsValue(d)
  {
    var s := d + rest;
    assert s[0] == d[0] && IsDigit(s[0]) && !IsSpace(s[0]);
    assert SkipSpace(s) == s;
    LeadingDigitsOfDigits(d, rest);
  }

  /**
   * The round trip the codec depends on: `atoi` of the `%d` text of `n`,
   * followed by anything that does not start with a digit, is `n`.
   */
  lemma AtoiOfFormatInt(n: int, rest: string)
    requires rest == [] || !IsDigit(rest[0])
    ensures Atoi(FormatInt(n) + rest) == n
  {
    if n < 0 {
      DigitsValueOfDigits(-n);
      AtoiOfNegative(DigitsOf(-n), rest);
      assert FormatInt(n) + rest == ['-'] + (DigitsOf(-n) + rest);
    } else {
      DigitsValueOfDigits(n);
      AtoiOfNonNegative(DigitsOf(n), rest);
    }
  }
}
