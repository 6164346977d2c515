/** Decimal numerals of non-negative integers: JavaScript's `String(n)`
    (and template interpolation `${n}`) for the integer values the form
    formats, with the reading-back function that inverts it. */
module Decimal {

  predicate IsDigit(c: char) {
    '0' <= c <= '9'
  }

  predicate AllDigits(s: string) {
    forall i :: 0 <= i < |s| ==> IsDigit(s[i])
  }

  function DigitChar(d: nat): (c: char)
    requires d < 10
    ensures IsDigit(c)
  {
    ('0' as int + d) as char
  }

  /** The value of a digit character; anything else reads as zero. */
  function DigitValue(c: char): (d: nat)
    ensures d < 10
  {
    if IsDigit(c) then c as int - '0' as int else 0
  }

  lemma DigitRoundTrip(d: nat)
    requires d < 10
    ensures DigitValue(DigitChar(d)) == d
  {
  }

  function Pow10(k: nat): (p: nat)
    ensures p >= 1
  {
    if k == 0 then 1 else 10 * Pow10(k - 1)
  }

  /** `String(n)`: the decimal numeral of `n`, most significant digit
      first. */
  function FromNat(n: nat): (s: string)
    ensures |s| >= 1
    ensures |s| == 1 <==> n < 10
    decreases n
  {
    if n < 10 then [DigitChar(n)] else FromNat(n / 10) + [DigitChar(n % 10)]
  }

  /** The numeral is all digits and has no leading zero: it is the shortest
      one. */
  lemma {:induction false} FromNatDigits(n: nat)
    ensures AllDigits(FromNat(n))
    ensures FromNat(n)[0] == '0' ==> n == 0
    decreases n
  {
    if n >= 10 {
      FromNatDigits(n / 10);
      var p := FromNat(n / 10);
      assert FromNat(n) == p + [DigitChar(n % 10)];
      assert FromNat(n)[0] == p[0];
    }
  }

  /** The value of a numeral, most significant digit first; leading zeros
      are allowed and the empty numeral reads as zero. */
  function ToNat(s: string): nat
  {
    if s == [] then 0 else ToNat(s[..|s| - 1]) * 10 + DigitValue(s[|s| - 1])
  }

  /** Reading back a formatted number gives the number. */
  lemma {:induction false} ToNatFromNat(n: nat)
    ensures ToNat(FromNat(n)) == n
    decreases n
  {
    var s := FromNat(n);
    if n < 10 {
      DigitRoundTrip(n);
    } else {
      DigitRoundTrip(n % 10);
      ToNatFromNat(n / 10);
      assert s[..|s| - 1] == FromNat(n / 10);
    }
  }

  /** `FromNat` is injective: two numbers with the same numeral are equal. */
  lemma FromNatInjective(m: nat, n: nat)
    requires FromNat(m) == FromNat(n)
    ensures m == n
  {
    ToNatFromNat(m);
    ToNatFromNat(n);
  }

  /** The numeral of `n` has k digits exactly when 10^(k-1) <= n < 10^k
      (for k = 1 the lower bound is 0). */
  lemma {:induction false} FromNatLength(n: nat)
    ensures n < Pow10(|FromNat(n)|)
    ensures |FromNat(n)| > 1 ==> Pow10(|FromNat(n)| - 1) <= n
    decreases n
  {
    if n >= 10 {
      FromNatLength(n / 10);
    }
  }

  /** The lengths the timestamp relies on. */
  lemma FromNatLengthCases(n: nat)
    ensures n < 10 <==> |FromNat(n)| == 1
    ensures 10 <= n < 100 <==> |FromNat(n)| == 2
    ensures 1000 <= n < 10000 <==> |FromNat(n)| == 4
  {
    FromNatLength(n);
    var k := |FromNat(n)|;
    if k >= 5 {
      PowMonotone(4, k - 1);
    }
  }

  lemma {:induction false} PowMonotone(i: nat, j: nat)
    requires i <= j
    ensures Pow10(i) <= Pow10(j)
    decreases j
  {
    if i < j {
      PowMonotone(i, j - 1);
    }
  }
}
