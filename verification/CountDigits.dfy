/**
  `count_digits` of fmt: the bit trick with a table of powers of ten, for 32-
  and 64-bit arguments, and the fallback that divides by 10000.  All three
  compute the length of the decimal notation.
 */
module CountDigits {
  import opened Decimal

  /** POWERS_OF_10_64; POWERS_OF_10_32 is its first ten entries. */
  const POWERS_OF_10_64: seq<nat> := [
    0, 10, 100, 1000, 10000, 100000, 1000000, 10000000, 100000000, 1000000000,
    1000000000 * 10, 1000000000 * 100, 1000000000 * 1000, 1000000000 * 10000, 1000000000 * 100000,
    1000000000 * 1000000, 1000000000 * 10000000, 1000000000 * 100000000, 1000000000 * 1000000000,
    10000000000000000000]

  const POWERS_OF_10_32: seq<nat> := POWERS_OF_10_64[..10]

  /** Position of the highest set bit of `n`, counted from one: width - CLZ(n). */
  function BitLength(n: nat): (b: nat)
  {
    if n == 0 then 0 else 1 + BitLength(n / 2)
  }

  /** `n | 1` */
  function OrOne(n: nat): nat {
    if n % 2 == 0 then n + 1 else n
  }

  /** The table index chosen by the bit trick: (width - CLZ(n | 1)) * 1233 >> 12. */
  function TableIndex(n: nat): nat {
    BitLength(OrOne(n)) * 1233 / 4096
  }

  function CountDigits64(n: nat): (count: nat)
    requires n < Pow2(64)
    ensures count == |Digits(n)|
  {
    IndexInTable(n, 64);
    var t := TableIndex(n);
    BitTrick(n, 64);
    if n < POWERS_OF_10_64[t] then t else t + 1
  }

  function CountDigits32(n: nat): (count: nat)
    requires n < Pow2(32)
    ensures count == |Digits(n)|
  {
    IndexInTable(n, 32);
    var t := TableIndex(n);
    PowersOfTwo();
    BitTrick(n, 32);
    if n < POWERS_OF_10_32[t] then t else t + 1
  }

  /** The overload chosen for an unsigned argument of `width` bits. */
  method CountDigitsOf(n: nat, width: nat) returns (count: nat)
    requires (width == 32 && n < 0x1_0000_0000) || (width == 64 && n < 0x1_0000_0000_0000_0000)
    ensures count == |Digits(n)|
  {
    PowersOfTwo();
    count := if width == 32 then CountDigits32(n) else CountDigits64(n);
  }

  lemma {:induction false} BitLengthBounds(n: nat)
    requires n > 0
    ensures BitLength(n) > 0 && Pow2(BitLength(n) - 1) <= n < Pow2(BitLength(n))
  {
    if n > 1 {
      BitLengthBounds(n / 2);
    } else {
      assert BitLength(1) == 1 + BitLength(0);
      assert Pow2(0) == 1 && Pow2(1) == 2;
    }
  }

  lemma BitLengthWithin(n: nat, width: nat)
    requires 0 < n < Pow2(width)
    ensures 1 <= BitLength(n) <= width
  {
    BitLengthBounds(n);
    if BitLength(n) > width {
      Pow2Monotonic(width, BitLength(n) - 1);
    }
  }

  /** The index never leaves the table: at most 9 for 32 bits and at most 19 for 64 bits. */
  lemma IndexInTable(n: nat, width: nat)
    requires n < Pow2(width) && 0 < width
    ensures TableIndex(n) <= width * 1233 / 4096
  {
    assert Pow2(width) % 2 == 0;
    BitLengthWithin(OrOne(n), width);
  }

  /** The last bit length for which the bit trick picks index `t`. */
  function LastBitLength(t: nat): nat {
    (4096 * (t + 1) - 1) / 1233
  }

  /** Why 1233 and 12 are the right constants: 2^LastBitLength(t) lies between 10^t and 10^(t+1). */
  lemma Boundary(t: nat)
    requires t < 20
    ensures Pow10(t) <= Pow2(LastBitLength(t)) <= Pow10(t + 1)
  {
    hide Pow2, Pow10;
    PowersOfTwo();
    PowersOfTen();
  }

  /** The powers of two that end a stretch of equal table indices. */
  lemma PowersOfTwo()
    ensures Pow2(3) == 8 && Pow2(6) == 64 && Pow2(9) == 512 && Pow2(13) == 8192
    ensures Pow2(16) == 65536 && Pow2(19) == 524288 && Pow2(23) == 8388608 && Pow2(26) == 67108864
    ensures Pow2(29) == 536870912 && Pow2(33) == 8589934592 && Pow2(36) == 68719476736 && Pow2(39) == 549755813888
    ensures Pow2(43) == 8796093022208 && Pow2(46) == 70368744177664 && Pow2(49) == 562949953421312
    ensures Pow2(53) == 9007199254740992 && Pow2(56) == 72057594037927936 && Pow2(59) == 576460752303423488
    ensures Pow2(63) == 9223372036854775808 && Pow2(66) == 73786976294838206464
    ensures Pow2(32) == 0x1_0000_0000 && Pow2(64) == 0x1_0000_0000_0000_0000
  {
    assert Pow2(3) == 8 && Pow2(4) == 16;
    NextPower(3, 3);
    NextPower(6, 3);
    NextPower(9, 4);
    NextPower(13, 3);
    NextPower(16, 3);
    NextPower(19, 4);
    NextPower(23, 3);
    NextPower(26, 3);
    NextPower(29, 4);
    NextPower(33, 3);
    NextPower(36, 3);
    NextPower(39, 4);
    NextPower(43, 3);
    NextPower(46, 3);
    NextPower(49, 4);
    NextPower(53, 3);
    NextPower(56, 3);
    NextPower(59, 4);
    NextPower(63, 3);
    NextPower(29, 3);
    NextPower(63, 1);
  }

  lemma NextPower(k: nat, step: nat)
    ensures step == 1 ==> Pow2(k + step) == 2 * Pow2(k)
    ensures step == 3 ==> Pow2(k + step) == 8 * Pow2(k)
    ensures step == 4 ==> Pow2(k + step) == 16 * Pow2(k)
  {
    assert Pow2(k + 1) == 2 * Pow2(k);
    assert Pow2(k + 2) == 2 * Pow2(k + 1);
    assert Pow2(k + 3) == 2 * Pow2(k + 2);
    assert Pow2(k + 4) == 2 * Pow2(k + 3);
  }

  lemma PowersOfTen()
    ensures forall k :: 1 <= k < 20 ==> Pow10(k) == POWERS_OF_10_64[k]
    ensures Pow10(0) == 1 && Pow10(20) == 100000000000000000000
  {
    assert Pow10(5) == 100000;
    assert Pow10(10) == 10000000000;
    assert Pow10(15) == 1000000000000000;
    assert Pow10(20) == 100000000000000000000;
  }

  lemma OrOneFits(n: nat, width: nat)
    requires n < Pow2(width) && width >= 1
    ensures 0 < OrOne(n) < Pow2(width)
  {
    assert Pow2(width) % 2 == 0;
  }

  /** The bit lengths that share an index end at LastBitLength. */
  lemma IndexOfLength(b: nat)
    requires 1 <= b <= 64
    ensures var t := b * 1233 / 4096;
      t < 20 && b <= LastBitLength(t) && (t > 0 ==> LastBitLength(t - 1) <= b - 1)
  {
  }

  lemma TableEntry(t: nat)
    requires t < 20
    ensures |POWERS_OF_10_64| == 20 && POWERS_OF_10_64[t] == if t == 0 then 0 else Pow10(t)
  {
    PowersOfTen();
  }

  /** The powers of two around a bit length against the powers of ten around its index. */
  lemma Brackets(b: nat, t: nat)
    requires 1 <= b <= 64 && t == b * 1233 / 4096
    ensures t < 20 && Pow2(b) <= Pow10(t + 1) && (t > 0 ==> Pow10(t - 1) <= Pow2(b - 1))
  {
    IndexOfLength(b);
    Boundary(t);
    Pow2Monotonic(b, LastBitLength(t));
    if t > 0 {
      Boundary(t - 1);
      Pow2Monotonic(LastBitLength(t - 1), b - 1);
    }
    hide *;
  }

  /** The bit trick picks the table entry that decides between two digit counts. */
  lemma BitTrick(n: nat, width: nat)
    requires n < Pow2(width) && 1 <= width <= 64
    ensures TableIndex(n) < |POWERS_OF_10_64|
    ensures |Digits(n)| == if n < POWERS_OF_10_64[TableIndex(n)] then TableIndex(n) else TableIndex(n) + 1
  {
    OrOneFits(n, width);
    BitLengthWithin(OrOne(n), width);
    BitLengthBounds(OrOne(n));
    var b, t := BitLength(OrOne(n)), TableIndex(n);
    assert t == b * 1233 / 4096;
    hide *;
    Brackets(b, t);
    TableEntry(t);
    DigitsFromBrackets(n, t, Pow2(b - 1), Pow2(b), POWERS_OF_10_64[t]);
  }

  lemma DigitsFromBrackets(n: nat, t: nat, low: nat, high: nat, entry: nat)
    requires low <= OrOne(n) < high && high <= Pow10(t + 1)
    requires if t > 0 then Pow10(t - 1) <= low && entry == Pow10(t) else entry == 0
    ensures |Digits(n)| == if n < entry then t else t + 1
  {
    if n < entry {
      LowerBoundSurvivesOrOne(n, t - 1, low);
      DigitCountIs(n, t);
    } else {
      DigitCountIs(n, t + 1);
    }
  }

  /** Setting the lowest bit cannot lift `n` over an even power of ten. */
  lemma LowerBoundSurvivesOrOne(n: nat, k: nat, low: nat)
    requires Pow10(k) <= low <= OrOne(n)
    ensures k == 0 || Pow10(k) <= n
  {
    if k > 0 {
      assert Pow10(k) % 2 == 0;
    }
  }

  /** The fallback used when the compiler offers no CLZ. */
  method CountDigitsFallback(value: nat) returns (count: nat)
    ensures count == |Digits(value)|
  {
    var n := value;
    count := 1;
    while true
      invariant |Digits(value)| == |Digits(n)| + count - 1
      decreases n
    {
      FourDigits(n);
      if n < 10 { return; }
      if n < 100 { count := count + 1; return; }
      if n < 1000 { count := count + 2; return; }
      if n < 10000 { count := count + 3; return; }
      n := n / 10000;
      count := count + 4;
    }
  }

  lemma FourDigits(n: nat)
    ensures n >= 10 && n < 100 ==> |Digits(n)| == 2
    ensures n >= 100 && n < 1000 ==> |Digits(n)| == 3
    ensures n >= 1000 && n < 10000 ==> |Digits(n)| == 4
    ensures n >= 10000 ==> |Digits(n)| == |Digits(n / 10000)| + 4
  {
    if n >= 10000 {
      assert |Digits(n)| == |Digits(n / 10)| + 1;
      assert |Digits(n / 10)| == |Digits(n / 10 / 10)| + 1;
      assert n / 10 / 10 == n / 100;
      assert |Digits(n / 100)| == |Digits(n / 100 / 10)| + 1;
      assert n / 100 / 10 == n / 1000;
      assert |Digits(n / 1000)| == |Digits(n / 1000 / 10)| + 1;
      assert n / 1000 / 10 == n / 10000;
    } else if n >= 10 {
      assert |Digits(n)| == |Digits(n / 10)| + 1;
      if n >= 100 {
        assert |Digits(n / 10)| == |Digits(n / 10 / 10)| + 1;
      }
    }
  }
}
