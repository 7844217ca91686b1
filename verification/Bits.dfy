/** The bit operations of 64-bit unsigned words, bit by bit on natural numbers. */
module Bits {
  import opened Arithmetic
  import opened Decimal

  const WORD: int := 0x1_0000_0000_0000_0000

  /** x | y */
  function BitOr(x: nat, y: nat): nat {
    if x == 0 && y == 0 then 0
    else (if x % 2 == 1 || y % 2 == 1 then 1 else 0) + 2 * BitOr(x / 2, y / 2)
  }

  /** x & y */
  function BitAnd(x: nat, y: nat): nat {
    if x == 0 || y == 0 then 0
    else (if x % 2 == 1 && y % 2 == 1 then 1 else 0) + 2 * BitAnd(x / 2, y / 2)
  }

  function Times(x: nat, y: nat): nat {
    x * y
  }

  function Over(x: nat, y: nat): nat
    requires y > 0
  {
    x / y
  }

  /** x << k, losing what leaves the word */
  function ShiftLeft(x: nat, k: nat): nat {
    Times(x, Pow2(k)) % WORD
  }

  /** x >> k */
  function ShiftRight(x: nat, k: nat): nat {
    Over(x, Pow2(k))
  }

  lemma {:induction false} OrNothing(y: nat)
    ensures BitOr(0, y) == y
  {
    if y > 0 {
      OrNothing(y / 2);
    }
  }

  /** Or-ing a number under a multiple of sixteen adds it. */
  lemma OrFour(x: nat, y: nat)
    requires x < 16
    ensures BitOr(x, 16 * y) == x + 16 * y
  {
    OrNothing(y);
    assert x / 2 / 2 / 2 / 2 == 0 && 16 * y / 2 / 2 / 2 / 2 == y;
    OrStep(x, 8 * y);
    OrStep(x / 2, 4 * y);
    OrStep(x / 2 / 2, 2 * y);
    OrStep(x / 2 / 2 / 2, y);
    hide BitOr;
  }

  lemma OrStep(x: nat, y: nat)
    ensures BitOr(x, 2 * y) == x % 2 + 2 * BitOr(x / 2, y)
  {
    if x == 0 && y == 0 {
      assert BitOr(x / 2, y) == 0;
    }
  }

  lemma AndStep(x: nat, y: nat)
    ensures BitAnd(x, 2 * y) == 2 * BitAnd(x / 2, y)
    ensures BitAnd(x, 2 * y + 1) == x % 2 + 2 * BitAnd(x / 2, y)
  {
  }

  /** x & 0xf */
  lemma AndFour(x: nat)
    ensures BitAnd(x, 15) == x % 16
  {
    AndStep(x, 7);
    AndStep(x / 2, 3);
    AndStep(x / 2 / 2, 1);
    AndStep(x / 2 / 2 / 2, 0);
    assert BitAnd(x / 2 / 2 / 2 / 2, 0) == 0;
    LowFour(x);
    hide BitAnd;
  }

  lemma LowFour(x: nat)
    ensures x % 2 + 2 * (x / 2 % 2 + 2 * (x / 2 / 2 % 2 + 2 * (x / 2 / 2 / 2 % 2))) == x % 16
  {
  }

  lemma TimesTwice(x: nat, k: nat)
    requires k > 0
    ensures Times(x, Pow2(k)) == 2 * Times(x, Pow2(k - 1))
  {
    assert Pow2(k) == 2 * Pow2(k - 1);
  }

  lemma OverTwice(x: nat, k: nat)
    requires k > 0
    ensures Over(x, Pow2(k)) == Over(x / 2, Pow2(k - 1))
  {
    var p := Pow2(k - 1);
    assert Pow2(k) == 2 * p;
    var q := x / 2 / p;
    assert x / 2 == q * p + x / 2 % p;
    assert q * (2 * p) == 2 * (q * p);
    QuotientIs(x, 2 * p, q);
  }

  /** A mask shifted left selects what the mask selects from the number shifted right. */
  lemma {:induction false} ShiftedMask(x: nat, mask: nat, k: nat)
    ensures BitAnd(x, Times(mask, Pow2(k))) == Times(BitAnd(Over(x, Pow2(k)), mask), Pow2(k))
    decreases k
  {
    if k > 0 {
      TimesTwice(mask, k);
      AndStep(x, Times(mask, Pow2(k - 1)));
      ShiftedMask(x / 2, mask, k - 1);
      OverTwice(x, k);
      TimesTwice(BitAnd(Over(x, Pow2(k)), mask), k);
      hide *;
    } else {
      assert Pow2(0) == 1;
    }
  }

  lemma TimesOver(x: nat, p: nat)
    requires p > 0
    ensures Over(Times(x, p), p) == x
  {
    QuotientIs(x * p, p, x);
  }

  /** (x & (0xf << k)) >> k, for a mask that stays inside the word */
  lemma FieldIsQuotient(x: nat, k: nat)
    requires k <= 60
    ensures ShiftRight(BitAnd(x, ShiftLeft(15, k)), k) == Over(x, Pow2(k)) % 16
  {
    MaskFits(k);
    ShiftedMask(x, 15, k);
    AndFour(Over(x, Pow2(k)));
    TimesOver(BitAnd(Over(x, Pow2(k)), 15), Pow2(k));
    hide BitAnd, Times, Over, Pow2;
  }

  lemma {:induction false} Pow2Sum(j: nat, k: nat)
    ensures Pow2(j + k) == Times(Pow2(j), Pow2(k))
  {
    if k > 0 {
      Pow2Sum(j, k - 1);
      TimesTwice(Pow2(j), k);
      hide Times;
    }
  }

  lemma MaskFits(k: nat)
    requires k <= 60
    ensures ShiftLeft(15, k) == Times(15, Pow2(k))
  {
    Pow2Monotonic(k, 60);
    assert Pow2(15) == 0x8000;
    Pow2Sum(15, 15);
    Pow2Sum(30, 30);
    hide Pow2;
  }
}
