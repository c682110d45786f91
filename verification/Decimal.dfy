/** Decimal rendering of natural numbers, as C# string interpolation prints an
    unsigned integer: the shortest digit string, no sign, no leading zeros. */
module Decimal {

  /** The character of a digit `0..9`. */
  function DigitChar(d: nat): (c: char)
    requires d < 10
    ensures '0' <= c <= '9'
  {
    (('0' as int) + d) as char
  }

  /** The digit a character `'0'..'9'` stands for. */
  function DigitValue(c: char): (d: nat)
    requires '0' <= c <= '9'
    ensures d < 10 && DigitChar(d) == c
  {
    (c as int) - ('0' as int)
  }

  /** `n` in decimal. */
  function Format(n: nat): (s: string)
    decreases n
  {
    if n < 10 then [DigitChar(n)] else Format(n / 10) + [DigitChar(n % 10)]
  }

  /** A number below 10 is one digit. */
  lemma FormatOneDigit(n: nat)
    requires n < 10
    ensures Format(n) == [DigitChar(n)]
  {
  }

  /** A number from 10 to 99 is two digits. */
  lemma FormatTwoDigits(n: nat)
    requires 10 <= n < 100
    ensures Format(n) == [DigitChar(n / 10), DigitChar(n % 10)]
  {
    FormatOneDigit(n / 10);
  }

  /** Every character of `s` is a decimal digit. */
  predicate AllDigits(s: string) {
    forall i :: 0 <= i < |s| ==> '0' <= s[i] <= '9'
  }

  /** Reads a string of digits as a decimal number. */
  function Parse(s: string): nat
    requires forall i :: 0 <= i < |s| ==> '0' <= s[i] <= '9'
    decreases |s|
  {
    if |s| == 0 then 0 else 10 * Parse(s[..|s| - 1]) + DigitValue(s[|s| - 1])
  }

  /** Formatting yields a non-empty string of digits without a leading zero (except for
      zero itself). */
  lemma {:induction false} FormatIsCanonical(n: nat)
    ensures |Format(n)| >= 1
    ensures forall i :: 0 <= i < |Format(n)| ==> '0' <= Format(n)[i] <= '9'
    ensures Format(n)[0] == '0' <==> n == 0
    decreases n
  {
    if n >= 10 {
      FormatIsCanonical(n / 10);
    }
  }

  /** Parsing what was formatted gives back the number. */
  lemma {:induction false} ParseFormat(n: nat)
    ensures FormatIsDigits(n) && Parse(Format(n)) == n
    decreases n
  {
    FormatIsCanonical(n);
    if n >= 10 {
      ParseFormat(n / 10);
      assert Format(n)[..|Format(n)| - 1] == Format(n / 10);
    }
  }

  predicate FormatIsDigits(n: nat) {
    forall i :: 0 <= i < |Format(n)| ==> '0' <= Format(n)[i] <= '9'
  }

  /** Different numbers format differently. */
  lemma FormatInjective(a: nat, b: nat)
    requires Format(a) == Format(b)
    ensures a == b
  {
    ParseFormat(a);
    ParseFormat(b);
  }

  /** The number of digits at the front of `s`. */
  function LeadingDigits(s: string): nat
    decreases |s|
  {
    if |s| > 0 && '0' <= s[0] <= '9' then 1 + LeadingDigits(s[1..]) else 0
  }

  /** A digit string followed by a non-digit is exactly the leading digits. */
  lemma {:induction false} LeadingDigitsOfFormat(x: string, t: string)
    requires forall i :: 0 <= i < |x| ==> '0' <= x[i] <= '9'
    requires |t| > 0 && !('0' <= t[0] <= '9')
    ensures LeadingDigits(x + t) == |x|
    decreases |x|
  {
    if |x| > 0 {
      assert (x + t)[1..] == x[1..] + t;
      LeadingDigitsOfFormat(x[1..], t);
    } else {
      assert x + t == t;
    }
  }
}
