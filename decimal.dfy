/** Decimal rendering of non-negative integers, as JavaScript's template literals
    print a diagram index (`${index}`), together with its inverse. */
module Decimal {

  predicate IsDigit(c: char)
  {
    '0' <= c <= '9'
  }

  function DigitChar(d: nat): char
    requires d < 10
  {
    (('0' as int) + d) as char
  }

  function DigitValue(c: char): (d: nat)
    requires IsDigit(c)
    ensures d < 10
  {
    (c as int) - ('0' as int)
  }

  lemma DigitRoundTrip(d: nat)
    requires d < 10
    ensures IsDigit(DigitChar(d)) && DigitValue(DigitChar(d)) == d
  {
  }

  predicate AllDigits(s: string)
  {
    forall i :: 0 <= i < |s| ==> IsDigit(s[i])
  }

  /** `n / 10`, by repeated subtraction. */
  function Tens(n: nat): nat
  {
    if n < 10 then 0 else 1 + Tens(n - 10)
  }

  /** `n % 10`, by repeated subtraction. */
  function Units(n: nat): (d: nat)
    ensures d < 10
  {
    if n < 10 then n else Units(n - 10)
  }

  lemma {:induction false} TensUnits(n: nat)
    ensures n == 10 * Tens(n) + Units(n)
  {
    if n >= 10 {
      TensUnits(n - 10);
    }
  }

  /** The shortest decimal numeral of `n` (no sign, no leading zeros). */
  function NatToString(n: nat): string
  {
    if n < 10 then [DigitChar(n)]
    else
      TensUnits(n);
      NatToString(Tens(n)) + [DigitChar(Units(n))]
  }

  /** Reads a string of decimal digits back as a number. */
  function ParseDecimal(s: string): nat
    requires AllDigits(s)
    decreases |s|
  {
    if s == [] then 0 else 10 * ParseDecimal(s[..|s| - 1]) + DigitValue(s[|s| - 1])
  }

  /** The numeral is made of digits and reads back as the number it renders. */
  lemma {:induction false} ParseNatToString(n: nat)
    ensures AllDigits(NatToString(n)) && ParseDecimal(NatToString(n)) == n
    decreases n
  {
    var s := NatToString(n);
    if n < 10 {
      DigitRoundTrip(n);
      assert s[..0] == [];
    } else {
      TensUnits(n);
      DigitRoundTrip(Units(n));
      ParseNatToString(Tens(n));
      assert s[..|s| - 1] == NatToString(Tens(n));
    }
  }

  /** Distinct indices print as distinct numerals. */
  lemma NatToStringInjective(a: nat, b: nat)
    ensures NatToString(a) == NatToString(b) <==> a == b
  {
    if NatToString(a) == NatToString(b) {
      ParseNatToString(a);
      ParseNatToString(b);
    }
  }
}
