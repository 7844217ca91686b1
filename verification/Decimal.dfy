/**
  Plain decimal notation: the reference against which every fast integer
  routine of fmt is compared.  Nothing here mirrors a fast path; numbers are
  written by repeated division by ten and read by Horner's rule.
 */
module Decimal {

  function Pow10(k: nat): (p: nat)
    ensures p > 0
  {
    if k == 0 then 1 else 10 * Pow10(k - 1)
  }

  lemma {:induction false} Pow10Monotonic(j: nat, k: nat)
    requires j <= k
    ensures Pow10(j) <= Pow10(k)
    decreases k
  {
    if j < k {
      Pow10Monotonic(j, k - 1);
    }
  }

  function Pow2(k: nat): (p: nat)
    ensures p > 0
  {
    if k == 0 then 1 else 2 * Pow2(k - 1)
  }

  lemma {:induction false} Pow2Monotonic(j: nat, k: nat)
    requires j <= k
    ensures Pow2(j) <= Pow2(k)
    decreases k
  {
    if j < k {
      Pow2Monotonic(j, k - 1);
    }
  }

  function DigitChar(d: nat): (c: char)
    requires d < 10
  {
    '0' + d as char
  }

  predicate IsDigit(c: char) {
    '0' <= c <= '9'
  }

  function DigitValue(c: char): (d: nat)
    requires IsDigit(c)
    ensures d < 10 && DigitChar(d) == c
  {
    (c - '0') as nat
  }

  ghost predicate AllDigits(s: string) {
    forall i :: 0 <= i < |s| ==> IsDigit(s[i])
  }

  /** The decimal text of `n`, most significant digit first. */
  function Digits(n: nat): (s: string)
    ensures s != []
  {
    if n < 10 then [DigitChar(n)] else Digits(n / 10) + [DigitChar(n % 10)]
  }

  /** The last `k` decimal digits of `n`, padded with zeros on the left. */
  function Padded(n: nat, k: nat): (s: string)
    ensures |s| == k
  {
    if k == 0 then [] else Padded(n / 10, k - 1) + [DigitChar(n % 10)]
  }

  /** The number a digit string denotes. */
  function Value(s: string): nat
    requires AllDigits(s)
  {
    if s == [] then 0 else 10 * Value(s[..|s| - 1]) + DigitValue(s[|s| - 1])
  }

  lemma {:induction false} ValueOfDigits(n: nat)
    ensures AllDigits(Digits(n)) && Value(Digits(n)) == n
  {
    if n >= 10 {
      ValueOfDigits(n / 10);
      assert Digits(n)[..|Digits(n)| - 1] == Digits(n / 10);
    }
  }

  /** Digit strings without a superfluous leading zero are exactly the images of `Digits`. */
  lemma {:induction false} DigitsOfValue(s: string)
    requires AllDigits(s) && s != [] && (s[0] == '0' ==> |s| == 1)
    ensures Digits(Value(s)) == s
  {
    var front, d := s[..|s| - 1], DigitValue(s[|s| - 1]);
    assert s == front + [s[|s| - 1]];
    if |s| == 1 {
      assert Value(front) == 0;
    } else {
      DigitsOfValue(front);
      assert (10 * Value(front) + d) / 10 == Value(front);
    }
  }

  lemma DigitsInjective(m: nat, n: nat)
    requires Digits(m) == Digits(n)
    ensures m == n
  {
    ValueOfDigits(m);
    ValueOfDigits(n);
  }

  lemma {:induction false} DigitsArePadded(n: nat)
    ensures Digits(n) == Padded(n, |Digits(n)|)
  {
    if n >= 10 {
      DigitsArePadded(n / 10);
    } else {
      assert Padded(n, 1) == Padded(n / 10, 0) + [DigitChar(n)];
    }
  }

  /** The number of digits is the only `k` with 10^(k-1) <= n < 10^k, except that 0 has one digit. */
  lemma {:induction false} DigitCountBounds(n: nat)
    ensures n < Pow10(|Digits(n)|)
    ensures n > 0 ==> Pow10(|Digits(n)| - 1) <= n
  {
    if n >= 10 {
      DigitCountBounds(n / 10);
    } else {
      assert Pow10(1) == 10;
    }
  }

  lemma DigitCountIs(n: nat, k: nat)
    requires k >= 1 && n < Pow10(k) && (k == 1 || Pow10(k - 1) <= n)
    ensures |Digits(n)| == k
  {
    DigitCountBounds(n);
    var c := |Digits(n)|;
    if c < k {
      Pow10Monotonic(c, k - 1);
    } else if k < c {
      Pow10Monotonic(k, c - 1);
    }
  }

  lemma {:induction false} DigitsStart(n: nat)
    ensures Digits(n)[0] == '0' <==> n == 0
  {
    if n >= 10 {
      DigitsStart(n / 10);
    }
  }
}
