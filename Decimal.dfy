/** The `%d` verb of Go's fmt package: an integer written in base 10,
    with a leading '-' for negative values and no leading zeros. */
module Decimal {

  predicate IsDigit(c: char) {
    '0' <= c <= '9'
  }

  function DigitChar(d: nat): (c: char)
    requires d < 10
    ensures IsDigit(c) && (c as int) - ('0' as int) == d
  {
    (('0' as int) + d) as char
  }

  function DigitValue(c: char): (d: nat)
    requires IsDigit(c)
    ensures d < 10 && DigitChar(d) == c
  {
    (c as int) - ('0' as int)
  }

  /** True of the digit strings `%d` produces for a non-negative value. */
  ghost predicate IsNatDigits(s: string) {
    |s| > 0 && (forall i :: 0 <= i < |s| ==> IsDigit(s[i])) && (|s| > 1 ==> s[0] != '0')
  }

  /** The decimal digits of `n`, most significant first. */
  function NatDigits(n: nat): (s: string)
    ensures IsNatDigits(s)
    ensures |s| == 1 <==> n < 10
    decreases n
  {
    if n < 10 then [DigitChar(n)] else NatDigits(n / 10) + [DigitChar(n % 10)]
  }

  /** `fmt.Sprintf("%d", i)`. */
  function FormatInt(i: int): (s: string)
    ensures |s| > 0
    ensures i < 0 <==> s[0] == '-'
    ensures i >= 0 ==> IsNatDigits(s)
    ensures i < 0 ==> IsNatDigits(s[1..])
  {
    if i < 0 then "-" + NatDigits(-i) else NatDigits(i)
  }

  /** The value of a string of decimal digits (the inverse of NatDigits). */
  function ParseNat(s: string): nat
    requires forall i :: 0 <= i < |s| ==> IsDigit(s[i])
  {
    if |s| == 0 then 0 else ParseNat(s[..|s| - 1]) * 10 + DigitValue(s[|s| - 1])
  }

  /** The value of a string written by FormatInt (the inverse of FormatInt). */
  function ParseInt(s: string): int
    requires |s| > 0
    requires s[0] == '-' ==> IsNatDigits(s[1..])
    requires s[0] != '-' ==> IsNatDigits(s)
  {
    if s[0] == '-' then -(ParseNat(s[1..]) as int) else ParseNat(s)
  }

  lemma {:induction false} NatDigitsRoundTrip(n: nat)
    ensures ParseNat(NatDigits(n)) == n
    decreases n
  {
    var s := NatDigits(n);
    if n >= 10 {
      NatDigitsRoundTrip(n / 10);
      assert s[..|s| - 1] == NatDigits(n / 10);
    }
  }

  /** Every integer is read back from its `%d` rendering. */
  lemma FormatIntRoundTrip(i: int)
    ensures ParseInt(FormatInt(i)) == i
  {
    var s := FormatInt(i);
    if i < 0 {
      assert s[1..] == NatDigits(-i);
      NatDigitsRoundTrip(-i);
    } else {
      NatDigitsRoundTrip(i);
    }
  }

  /** `%d` gives distinct integers distinct renderings. */
  lemma FormatIntInjective(i: int, j: int)
    requires FormatInt(i) == FormatInt(j)
    ensures i == j
  {
    FormatIntRoundTrip(i);
    FormatIntRoundTrip(j);
  }
}
