/**
 * Decimal text of block and band numbers: std::to_string on an unsigned
 * value and std::stoul on a run of ASCII digits.
 */
module Decimal {

  predicate IsDigit(c: char) {
    '0' <= c <= '9'
  }

  predicate AllDigits(s: string) {
    forall i :: 0 <= i < |s| ==> IsDigit(s[i])
  }

  function DigitChar(n: nat): (c: char)
    requires n < 10
    ensures IsDigit(c)
  {
    (('0' as int) + n) as char
  }

  function DigitValue(c: char): (n: nat)
    requires IsDigit(c)
    ensures n < 10
  {
    (c as int) - ('0' as int)
  }

  /** std::to_string: the shortest decimal text of n. */
  function NatToString(n: nat): (r: string)
    ensures r != []
    ensures AllDigits(r)
  {
    if n < 10 then [DigitChar(n)] else NatToString(n / 10) + [DigitChar(n % 10)]
  }

  function Pow10(k: nat): nat {
    if k == 0 then 1 else 10 * Pow10(k - 1)
  }

  /**
   * std::stoul on a string of digits (leading zeros allowed): a string of
   * k digits reads as a number below 10^k, and its last digit is the
   * number's last decimal digit.
   */
  function DecimalValue(s: string): (r: nat)
    requires AllDigits(s)
    ensures r < Pow10(|s|)
    ensures s != [] ==> r % 10 == DigitValue(s[|s| - 1])
  {
    if s == [] then 0 else 10 * DecimalValue(s[..|s| - 1]) + DigitValue(s[|s| - 1])
  }

  /** Reading back the text to_string writes gives the number again. */
  lemma {:induction false} DecimalRoundTrip(n: nat)
    ensures DecimalValue(NatToString(n)) == n
  {
    if n >= 10 {
      var s := NatToString(n);
      assert s[..|s| - 1] == NatToString(n / 10);
      DecimalRoundTrip(n / 10);
    }
  }

  /** A leading zero does not change the value std::stoul reads. */
  lemma {:induction false} LeadingZero(s: string)
    requires AllDigits(s)
    ensures DecimalValue(['0'] + s) == DecimalValue(s)
  {
    if s != [] {
      var z := ['0'] + s;
      assert z[..|z| - 1] == ['0'] + s[..|s| - 1];
      LeadingZero(s[..|s| - 1]);
    }
  }

  lemma NatToStringInjective(m: nat, n: nat)
    requires NatToString(m) == NatToString(n)
    ensures m == n
  {
    DecimalRoundTrip(m);
    DecimalRoundTrip(n);
  }

  /** Decimal text never holds the underscore that separates the parts of a device key. */
  lemma NoUnderscore(s: string)
    requires AllDigits(s)
    ensures '_' !in s
  {
  }
}
