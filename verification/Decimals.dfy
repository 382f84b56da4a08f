/** Decimal digits of natural numbers. */
module Decimals {

  function Pow10(k: nat): (p: nat)
    ensures p > 0
  {
    if k == 0 then 1 else 10 * Pow10(k - 1)
  }

  lemma {:induction false} Pow10Sum(j: nat, k: nat)
    ensures Pow10(j + k) == Pow10(j) * Pow10(k)
  {
    if j > 0 {
      Pow10Sum(j - 1, k);
      assert 10 * (Pow10(j - 1) * Pow10(k)) == (10 * Pow10(j - 1)) * Pow10(k);
    }
  }

  predicate IsDigit(c: char) {
    '0' <= c <= '9'
  }

  function DigitOf(d: nat): (c: char)
    requires d < 10
    ensures IsDigit(c) && c as int - '0' as int == d
  {
    ('0' as int + d) as char
  }

  predicate AllDigits(s: string) {
    forall i :: 0 <= i < |s| ==> IsDigit(s[i])
  }

  function Digits(n: nat): (s: string)
    ensures s != [] && AllDigits(s)
  {
    if n < 10 then [DigitOf(n)] else Digits(n / 10) + [DigitOf(n % 10)]
  }

  function Value(s: string): nat
    requires AllDigits(s)
  {
    if s == [] then 0
    else
      var n := |s| - 1;
      10 * Value(s[..n]) + (s[n] as int - '0' as int)
  }

  lemma ValueAppend(s: string, d: nat)
    requires AllDigits(s) && d < 10
    ensures Value(s + [DigitOf(d)]) == 10 * Value(s) + d
  {
    assert (s + [DigitOf(d)])[..|s|] == s;
  }

  /** Reading the digits of a number gives the number back, and they have no leading zero. */
  lemma {:induction false} ValueOfDigits(n: nat)
    ensures Value(Digits(n)) == n
    ensures n > 0 ==> Digits(n)[0] != '0'
    ensures n == 0 ==> Digits(n) == "0"
  {
    if n < 10 {
      ValueAppend([], n);
      assert [] + [DigitOf(n)] == [DigitOf(n)];
    } else {
      ValueOfDigits(n / 10);
      ValueAppend(Digits(n / 10), n % 10);
    }
  }

  lemma {:induction false} DigitsFit(n: nat, k: nat)
    requires k > 0 && n < Pow10(k)
    ensures |Digits(n)| <= k
  {
    if n >= 10 {
      assert Pow10(k) == 10 * Pow10(k - 1);
      assert Pow10(0) == 1;
      DigitsFit(n / 10, k - 1);
    }
  }

  lemma TenTimes(v: int, k: nat)
    ensures 10 * (v * Pow10(k)) == v * Pow10(k + 1)
  {
  }

  lemma {:induction false} ValueConcat(s: string, t: string)
    requires AllDigits(s) && AllDigits(t)
    ensures AllDigits(s + t) && Value(s + t) == Value(s) * Pow10(|t|) + Value(t)
  {
    if t == [] {
      assert s + t == s;
    } else {
      var n := |t| - 1;
      ValueConcat(s, t[..n]);
      assert (s + t)[..|s + t| - 1] == s + t[..n];
      assert (s + t)[|s + t| - 1] == t[n];
      TenTimes(Value(s), n);
    }
  }

  function ZeroDigits(k: nat): (s: string)
    ensures |s| == k && AllDigits(s) && forall i :: 0 <= i < k ==> s[i] == '0'
  {
    seq(k, _ => '0')
  }

  lemma {:induction false} ValueOfZeros(k: nat)
    ensures Value(ZeroDigits(k)) == 0
  {
    if k > 0 {
      assert ZeroDigits(k)[..k - 1] == ZeroDigits(k - 1);
      ValueOfZeros(k - 1);
    }
  }
}
