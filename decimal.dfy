/**
 * Decimal rendering of integers, as JavaScript's `Number.prototype.toString()`
 * and template literals print an integer, together with the parser that reads
 * such a rendering back. Node ids, edge ids, SQL placeholders and the TaskList
 * group keys are all built from this rendering.
 */
module Decimal {

  const DIGITS := "0123456789"

  predicate IsDigit(c: char) {
    '0' <= c <= '9'
  }

  predicate AllDigits(s: string) {
    forall i :: 0 <= i < |s| ==> IsDigit(s[i])
  }

  function DigitValue(c: char): (d: nat)
    requires IsDigit(c)
    ensures d < 10 && DIGITS[d] == c
  {
    (c as int) - ('0' as int)
  }

  /** The shortest decimal rendering of `n`: digits only, no leading zero. */
  function NatToString(n: nat): (s: string)
    ensures |s| >= 1 && AllDigits(s)
    ensures s[0] == '0' ==> n == 0
    decreases n
  {
    if n < 10 then [DIGITS[n]] else NatToString(n / 10) + [DIGITS[n % 10]]
  }

  /** `String(n)` for an integer `n`: a minus sign before the digits of a negative number. */
  function IntToString(n: int): (s: string)
    ensures |s| >= 1
    ensures IsDigit(s[0]) || s[0] == '-'
  {
    if n < 0 then "-" + NatToString(-n) else NatToString(n)
  }

  function ParseNat(s: string): nat
    requires AllDigits(s)
  {
    if s == [] then 0 else ParseNat(s[..|s| - 1]) * 10 + DigitValue(s[|s| - 1])
  }

  predicate IsNumeral(s: string) {
    if |s| > 0 && s[0] == '-' then AllDigits(s[1..]) else AllDigits(s)
  }

  function ParseInt(s: string): int
    requires IsNumeral(s)
  {
    if |s| > 0 && s[0] == '-' then -(ParseNat(s[1..]) as int) else ParseNat(s)
  }

  /** Reading a rendering back gives the number that was rendered. */
  lemma {:induction false} ParseNatToString(n: nat)
    ensures ParseNat(NatToString(n)) == n
    decreases n
  {
    var s := NatToString(n);
    if n < 10 {
      assert s[..0] == [];
    } else {
      ParseNatToString(n / 10);
      assert s[..|s| - 1] == NatToString(n / 10);
    }
  }

  lemma ParseSigned(digits: string)
    requires AllDigits(digits)
    ensures IsNumeral("-" + digits) && ParseInt("-" + digits) == -(ParseNat(digits) as int)
  {
    var s := "-" + digits;
    assert s[0] == '-' && s[1..] == digits;
  }

  lemma NegativeToString(n: int)
    requires n < 0
    ensures IsNumeral(IntToString(n)) && ParseInt(IntToString(n)) == n
  {
    ParseNatToString(-n);
    ParseSigned(NatToString(-n));
  }

  lemma ParseIntToString(n: int)
    ensures IsNumeral(IntToString(n)) && ParseInt(IntToString(n)) == n
  {
    if n < 0 {
      NegativeToString(n);
    } else {
      ParseNatToString(n);
      assert IntToString(n) == NatToString(n);
    }
  }

  /** Distinct integers have distinct renderings. */
  lemma IntToStringInjective(a: int, b: int)
    ensures IntToString(a) == IntToString(b) <==> a == b
  {
    ParseIntToString(a);
    ParseIntToString(b);
  }
}
