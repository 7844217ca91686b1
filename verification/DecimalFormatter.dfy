/**
  `decimal_formatter::on<N>` and its dispatcher `lg`: a 32-bit number is scaled
  once to 4.32 fixed point and its digits are peeled off two at a time by
  multiplications, without any division.
 */
module DecimalFormatting {
  import opened Arithmetic
  import opened Decimal
  import CountDigits

  const TWO_32: int := 0x1_0000_0000
  const TWO_64: int := 0x1_0000_0000_0000_0000

  /** The table of digit pairs. */
  const DIGITS: string :=
    DECADE_0 + DECADE_1 + DECADE_2 + DECADE_3 + DECADE_4 + DECADE_5 + DECADE_6 + DECADE_7 + DECADE_8 + DECADE_9

  const DECADE_0: string := "00010203040506070809"
  const DECADE_1: string := "10111213141516171819"
  const DECADE_2: string := "20212223242526272829"
  const DECADE_3: string := "30313233343536373839"
  const DECADE_4: string := "40414243444546474849"
  const DECADE_5: string := "50515253545556575859"
  const DECADE_6: string := "60616263646566676869"
  const DECADE_7: string := "70717273747576777879"
  const DECADE_8: string := "80818283848586878889"
  const DECADE_9: string := "90919293949596979899"

  /** The pairs of ten numbers with the same first digit. */
  ghost predicate IsDecade(text: string, d: nat)
    requires d < 10
  {
    && |text| == 20
    && forall k :: 0 <= k < 10 ==> text[2 * k] == DigitChar(d) && text[2 * k + 1] == DigitChar(k)
  }

  lemma DecadeOf(text: string, c: char, d: nat)
    requires d < 10 && c == DigitChar(d)
    requires text == [c, '0', c, '1', c, '2', c, '3', c, '4', c, '5', c, '6', c, '7', c, '8', c, '9']
    ensures IsDecade(text, d)
  {
  }

  lemma Decades()
    ensures IsDecade(DECADE_0, 0) && IsDecade(DECADE_1, 1) && IsDecade(DECADE_2, 2) && IsDecade(DECADE_3, 3)
    ensures IsDecade(DECADE_4, 4) && IsDecade(DECADE_5, 5) && IsDecade(DECADE_6, 6) && IsDecade(DECADE_7, 7)
    ensures IsDecade(DECADE_8, 8) && IsDecade(DECADE_9, 9)
  {
    hide IsDecade;
    DecadeOf(DECADE_0, '0', 0);
    DecadeOf(DECADE_1, '1', 1);
    DecadeOf(DECADE_2, '2', 2);
    DecadeOf(DECADE_3, '3', 3);
    DecadeOf(DECADE_4, '4', 4);
    DecadeOf(DECADE_5, '5', 5);
    DecadeOf(DECADE_6, '6', 6);
    DecadeOf(DECADE_7, '7', 7);
    DecadeOf(DECADE_8, '8', 8);
    DecadeOf(DECADE_9, '9', 9);
  }

  function Joined(texts: seq<string>): string
    requires |texts| == 10
  {
    texts[0] + texts[1] + texts[2] + texts[3] + texts[4] + texts[5] + texts[6] + texts[7] + texts[8] + texts[9]
  }

  lemma JoinedAt(texts: seq<string>, d: nat, i: nat)
    requires |texts| == 10 && d < 10 && i < 20 && forall e :: 0 <= e < 10 ==> |texts[e]| == 20
    ensures |Joined(texts)| == 200 && Joined(texts)[20 * d + i] == texts[d][i]
  {
  }

  lemma JoinedPairs(texts: seq<string>, index: nat)
    requires |texts| == 10 && index < 100 && forall e :: 0 <= e < 10 ==> IsDecade(texts[e], e)
    ensures |Joined(texts)| == 200
    ensures Joined(texts)[2 * index] == DigitChar(index / 10) && Joined(texts)[2 * index + 1] == DigitChar(index % 10)
  {
    var d, k := index / 10, index % 10;
    JoinedAt(texts, d, 2 * k);
    JoinedAt(texts, d, 2 * k + 1);
    hide Joined;
  }

  lemma PairAt(index: nat)
    requires index < 100
    ensures |DIGITS| == 200
    ensures DIGITS[2 * index] == DigitChar(index / 10) && DIGITS[2 * index + 1] == DigitChar(index % 10)
  {
    hide DECADE_0, DECADE_1, DECADE_2, DECADE_3, DECADE_4, DECADE_5, DECADE_6, DECADE_7, DECADE_8, DECADE_9, IsDecade;
    Decades();
    var texts := [DECADE_0, DECADE_1, DECADE_2, DECADE_3, DECADE_4, DECADE_5, DECADE_6, DECADE_7, DECADE_8, DECADE_9];
    JoinedPairs(texts, index);
    assert DIGITS == Joined(texts);
  }

  /** The two table cells for `index`. */
  method ReadPair(index: nat) returns (tens: char, ones: char)
    requires index < 100
    ensures tens == DigitChar(index / 10) && ones == DigitChar(index % 10)
  {
    PairAt(index);
    tens, ones := DIGITS[index * 2], DIGITS[index * 2 + 1];
  }

  lemma PaddedPair(n: nat, k: nat, index: nat)
    requires index < 100
    ensures Padded(100 * n + index, k + 2) == Padded(n, k) + [DigitChar(index / 10), DigitChar(index % 10)]
  {
    var m := 100 * n + index;
    assert m / 10 == 10 * n + index / 10 && m / 10 / 10 == n;
    assert Padded(m, k + 2) == Padded(m / 10, k + 1) + [DigitChar(m % 10)];
    assert Padded(m / 10, k + 1) == Padded(n, k) + [DigitChar(m / 10 % 10)];
  }

  // ----- the constants of the fixed-point scaling, for n = N - 1 -----

  function Shift(n: nat): nat {
    n / 5 * n * 53 / 16
  }

  function Quotient(x: int, y: int): (q: int)
    requires y > 0
    ensures 0 <= x ==> 0 <= q
  {
    x / y
  }

  lemma QuotientBelow(x: int, y: int, limit: int)
    requires y > 0 && x < limit * y
    ensures Quotient(x, y) < limit
  {
    if Quotient(x, y) >= limit {
      MulMonotonic(limit, Quotient(x, y), y);
      assert false;
    }
  }

  /** (1ULL << (32 + a)) / 10^n + 1 - n / 9 */
  function Multiplier(n: nat): int {
    Quotient(Pow2(32 + Shift(n)), Pow10(n)) + 1 - n / 9
  }

  /** The last term of the multiplier never counts: n is at most 8. */
  lemma NoCorrection(n: nat)
    requires n <= 8
    ensures Multiplier(n) == Quotient(Pow2(32 + Shift(n)), Pow10(n)) + 1
  {
    hide Quotient, Pow2, Pow10, Shift;
  }

  /** ((multiplier * u) >> a) + bias in 64-bit arithmetic, with `divisor` == 2^a */
  function Scale(multiplier: int, u: nat, divisor: nat, bias: nat): int
    requires divisor > 0
  {
    multiplier * u % TWO_64 / divisor + bias
  }

  function FixedPoint(n: nat, u: nat): int {
    Scale(Multiplier(n), u, Pow2(Shift(n)), n / 5 * 4)
  }

  /** `x` in 4.32 fixed point stands for u / divisor with an error in [0, 1 / divisor). */
  ghost predicate Represents(x: int, u: nat, divisor: nat) {
    u * TWO_32 <= x * divisor < (u + 1) * TWO_32
  }

  lemma PowersOfTwo()
    ensures Pow2(0) == 1 && Pow2(16) == 0x1_0000 && Pow2(19) == 0x8_0000
    ensures Pow2(23) == 0x80_0000 && Pow2(26) == 0x400_0000
    ensures Pow2(32) == TWO_32 && Pow2(48) == 0x1_0000_0000_0000 && Pow2(51) == 0x8_0000_0000_0000
    ensures Pow2(55) == 0x80_0000_0000_0000 && Pow2(58) == 0x400_0000_0000_0000
  {
    assert Pow2(8) == 0x100;
    CountDigits.PowersOfTwo();
    CountDigits.NextPower(16, 3);
    CountDigits.NextPower(23, 3);
    CountDigits.NextPower(29, 3);
    CountDigits.NextPower(46, 1);
    CountDigits.NextPower(47, 1);
    CountDigits.NextPower(48, 3);
    CountDigits.NextPower(51, 4);
    CountDigits.NextPower(55, 3);
  }

  lemma PowersOfTen()
    ensures Pow10(1) == 10 && Pow10(2) == 100 && Pow10(3) == 1000 && Pow10(4) == 10000 && Pow10(5) == 100000
    ensures Pow10(6) == 1000000 && Pow10(7) == 10000000 && Pow10(8) == 100000000
  {
    assert Pow10(4) == 10000;
  }

  ghost predicate Accurate(multiplier: int, u: nat, divisor: nat, bias: nat, p: nat)
    requires divisor > 0
  {
    && 0 <= multiplier * u < TWO_64
    && Represents(Scale(multiplier, u, divisor, bias), u, p)
  }

  // Once the constants are numbers, each error bound is linear in `u`.
  lemma Accurate1(u: nat)
    requires u < 1000
    ensures Accurate(429496730, u, 1, 0, 10)
  {
  }

  lemma Accurate2(u: nat)
    requires u < 10000
    ensures Accurate(42949673, u, 1, 0, 100)
  {
  }

  lemma Accurate3(u: nat)
    requires u < 100000
    ensures Accurate(4294968, u, 1, 0, 1000)
  {
  }

  lemma Accurate4(u: nat)
    requires u < 1000000
    ensures Accurate(429497, u, 1, 0, 10000)
  {
  }

  lemma Accurate5(u: nat)
    requires u < 10000000
    ensures Accurate(2814749768, u, 65536, 4, 100000)
  {
  }

  lemma Accurate6(u: nat)
    requires u < 100000000
    ensures Accurate(2251799814, u, 524288, 4, 1000000)
  {
  }

  lemma Accurate7(u: nat)
    requires u < 1000000000
    ensures Accurate(3602879702, u, 8388608, 4, 10000000)
  {
  }

  lemma Accurate8(u: nat)
    requires u < 4294967296
    ensures Accurate(2882303762, u, 67108864, 4, 100000000)
  {
  }

  lemma ScaledError(n: nat, u: nat)
    requires 1 <= n <= 8 && u < Pow10(n + 2) && u < TWO_32
    ensures 0 <= Multiplier(n) * u < TWO_64
    ensures Represents(FixedPoint(n, u), u, Pow10(n))
  {
    assert Pow10(n + 2) == 10 * Pow10(n + 1) == 100 * Pow10(n);
    PowersOfTen();
    ConstantsFor(n);
    match n {
      case 1 => Accurate1(u);
      case 2 => Accurate2(u);
      case 3 => Accurate3(u);
      case 4 => Accurate4(u);
      case 5 => Accurate5(u);
      case 6 => Accurate6(u);
      case 7 => Accurate7(u);
      case 8 => Accurate8(u);
    }
  }

  lemma ConstantsFor(n: nat)
    requires 1 <= n <= 8
    ensures n == 1 ==> Pow2(Shift(n)) == 1 && Multiplier(n) == 429496730
    ensures n == 2 ==> Pow2(Shift(n)) == 1 && Multiplier(n) == 42949673
    ensures n == 3 ==> Pow2(Shift(n)) == 1 && Multiplier(n) == 4294968
    ensures n == 4 ==> Pow2(Shift(n)) == 1 && Multiplier(n) == 429497
    ensures n == 5 ==> Pow2(Shift(n)) == 65536 && Multiplier(n) == 2814749768
    ensures n == 6 ==> Pow2(Shift(n)) == 524288 && Multiplier(n) == 2251799814
    ensures n == 7 ==> Pow2(Shift(n)) == 8388608 && Multiplier(n) == 3602879702
    ensures n == 8 ==> Pow2(Shift(n)) == 67108864 && Multiplier(n) == 2882303762
  {
    match n {
      case 1 => Constants1();
      case 2 => Constants2();
      case 3 => Constants3();
      case 4 => Constants4();
      case 5 => Constants5();
      case 6 => Constants6();
      case 7 => Constants7();
      case 8 => Constants8();
    }
  }

  lemma Constants1()
    ensures Pow2(Shift(1)) == 1 && Multiplier(1) == 429496730
  {
    hide Pow2, Pow10;
    PowersOfTwo();
    PowersOfTen();
  }

  lemma Constants2()
    ensures Pow2(Shift(2)) == 1 && Multiplier(2) == 42949673
  {
    hide Pow2, Pow10;
    PowersOfTwo();
    PowersOfTen();
  }

  lemma Constants3()
    ensures Pow2(Shift(3)) == 1 && Multiplier(3) == 4294968
  {
    hide Pow2, Pow10;
    PowersOfTwo();
    PowersOfTen();
  }

  lemma Constants4()
    ensures Pow2(Shift(4)) == 1 && Multiplier(4) == 429497
  {
    hide Pow2, Pow10;
    PowersOfTwo();
    PowersOfTen();
  }

  lemma Constants5()
    ensures Pow2(Shift(5)) == 65536 && Multiplier(5) == 2814749768
  {
    hide Pow2, Pow10;
    PowersOfTwo();
    PowersOfTen();
  }

  lemma Constants6()
    ensures Pow2(Shift(6)) == 524288 && Multiplier(6) == 2251799814
  {
    hide Pow2, Pow10;
    PowersOfTwo();
    PowersOfTen();
  }

  lemma Constants7()
    ensures Pow2(Shift(7)) == 8388608 && Multiplier(7) == 3602879702
  {
    hide Pow2, Pow10;
    PowersOfTwo();
    PowersOfTen();
  }

  lemma Constants8()
    ensures Pow2(Shift(8)) == 67108864 && Multiplier(8) == 2882303762
  {
    hide Pow2, Pow10;
    PowersOfTwo();
    PowersOfTen();
  }

  lemma SplitProduct(whole: int, low: int, divisor: int)
    ensures (whole * TWO_32 + low) * divisor == whole * divisor * TWO_32 + low * divisor
  {
  }

  lemma Sandwich(u: int, w: int, l: int, divisor: int)
    requires u * TWO_32 <= w * TWO_32 + l < (u + 1) * TWO_32 && 0 <= l <= 0xffff_ffff * divisor && divisor > 0
    ensures w <= u < w + divisor
  {
  }

  /** Truncating an accurate fixed-point number gives the integer quotient. */
  lemma IntegerPart(u: nat, whole: nat, low: nat, divisor: nat)
    requires low < TWO_32 && divisor > 0
    requires Represents(whole * TWO_32 + low, u, divisor)
    ensures whole == Quotient(u, divisor)
  {
    IntegerBounds(u, whole, low, divisor);
    QuotientIs(u, divisor, whole);
  }

  lemma IntegerBounds(u: nat, whole: nat, low: nat, divisor: nat)
    requires low < TWO_32 && divisor > 0
    requires Represents(whole * TWO_32 + low, u, divisor)
    ensures whole * divisor <= u < whole * divisor + divisor
  {
    SplitProduct(whole, low, divisor);
    MulMonotonic(0, low, divisor);
    MulMonotonic(low, 0xffff_ffff, divisor);
    Sandwich(u, whole * divisor, low * divisor, divisor);
  }

  /** Multiplying the fraction by `step` moves the next digits into the integer part, without rounding. */
  lemma NextDigits(u: nat, whole: nat, low: nat, step: nat, divisor: nat)
    requires low < TWO_32 && divisor > 0 && (step == 10 || step == 100)
    requires Represents(whole * TWO_32 + low, u, step * divisor)
    ensures step * low < TWO_64 && step * low / TWO_32 < step
    ensures Represents((step * whole + step * low / TWO_32) * TWO_32 + step * low % TWO_32, u, divisor)
    ensures step * whole + step * low / TWO_32 == Quotient(u, divisor)
  {
    var t := step * low;
    var whole' := step * whole + t / TWO_32;
    var x := whole * TWO_32 + low;
    assert whole' * TWO_32 + t % TWO_32 == step * x;
    assert step * x * divisor == x * (step * divisor);
    IntegerPart(u, whole', t % TWO_32, divisor);
  }

  /** The numbers `lg` sends to `on<N>`: those with N + 1 digits. */
  ghost predicate HasDigits(u: nat, count: nat) {
    count >= 1 && u < Pow10(count) && (count == 1 || Pow10(count - 1) <= u)
  }

  /** t >> 32 */
  function High(t: int): int {
    t / TWO_32
  }

  /** static_cast<uint32_t>(t) */
  function Low(t: int): (l: nat)
    ensures l < TWO_32
  {
    t % TWO_32
  }

  lemma OverwritePair(head: string, text: string, rest: string, a: char, b: char)
    requires |rest| >= 2
    ensures (head + text + rest)[|head| + |text| := a][|head| + |text| + 1 := b] == head + (text + [a, b]) + rest[2..]
  {
  }

  lemma AllDigitsWritten(u: nat, count: nat)
    requires HasDigits(u, count)
    ensures Padded(u, count) == Digits(u)
  {
    DigitCountIs(u, count);
    DigitsArePadded(u);
  }

  class DecimalFormatter {
    var buffer: array<char>
    var pos: nat

    constructor (buf: array<char>)
      ensures buffer == buf && pos == 0
    {
      buffer, pos := buf, 0;
    }

    method WritePair(at: nat, index: nat)
      requires index < 100 && pos + at + 2 <= buffer.Length
      modifies buffer
      ensures buffer[..] == old(buffer[..])[pos + at := DigitChar(index / 10)][pos + at + 1 := DigitChar(index % 10)]
    {
      buffer[pos + at], buffer[pos + at + 1] := ReadPair(index);
    }

    /** `on<N>`: writes the N + 1 digits of `u` and moves the buffer pointer past them. */
    method On(N: nat, u: nat)
      requires N <= 9 && u < TWO_32 && HasDigits(u, N + 1)
      requires pos + N + 1 <= buffer.Length
      modifies this`pos, buffer
      ensures pos == old(pos) + N + 1 && pos <= buffer.Length
      ensures buffer[..] == old(buffer[..pos]) + Digits(u) + old(buffer[..])[pos..]
    {
      AllDigitsWritten(u, N + 1);
      if N == 0 {
        assert Padded(u, 1) == Padded(u / 10, 0) + [DigitChar(u % 10)];
        assert Pow10(1) == 10;
        buffer[pos] := DigitChar(u);
      } else if N == 1 {
        assert Pow10(2) == 100;
        PaddedPair(0, 0, u);
        WritePair(0, u);
      } else {
        Scaled(N, u);
      }
      pos := pos + N + 1;
    }

    /** Scales `u` and writes its first two digits. */
    method Begin(N: nat, u: nat) returns (t: int)
      requires 2 <= N <= 9 && u < TWO_32 && HasDigits(u, N + 1)
      requires pos + N + 1 <= buffer.Length
      modifies buffer
      ensures Written(buffer[..], old(buffer[..pos]), old(buffer[pos..]), u, N, 2, t)
    {
      t := FixedPoint(N - 1, u);
      FirstPair(buffer[..], buffer[..pos], buffer[pos..], u, N, t);
      WritePair(0, High(t));
    }

    /** The branch of `on<N>` for N >= 2. */
    method Scaled(N: nat, u: nat)
      requires 2 <= N <= 9 && u < TWO_32 && HasDigits(u, N + 1)
      requires pos + N + 1 <= buffer.Length
      modifies buffer
      ensures buffer[..] == old(buffer[..pos]) + Padded(u, N + 1) + old(buffer[pos..])[N + 1..]
    {
      hide *;
      ghost var head, rest := buffer[..pos], buffer[pos..];
      var t := Begin(N, u);
      var i := 2;
      while i < N
        invariant Written(buffer[..], head, rest, u, N, i, t)
      {
        NextPair(buffer[..], head, rest, u, N, i, t);
        t := 100 * Low(t);
        WritePair(i, High(t));
        i := i + 2;
      }
      LastDigit(buffer[..], head, rest, u, N, i, t);
      if N % 2 == 0 {
        buffer[pos + N] := DigitChar(High(10 * Low(t)));
      }
    }
  }

  /** The number formed by all but the last `k` digits. */
  function Leading(u: nat, k: nat): (q: nat) {
    Quotient(u, Pow10(k))
  }

  /** Loop state of `on<N>`: `i` leading digits of `u` are in place and `t` still represents the others. */
  ghost predicate Written(text: string, head: string, rest: string, u: nat, N: nat, i: nat, t: int) {
    && 2 <= i <= N + 1 <= |rest| && i % 2 == 0 && 0 <= t
    && var whole := Leading(u, N + 1 - i);
    && Represents(whole * TWO_32 + Low(t), u, Pow10(N + 1 - i))
    && text == head + Padded(whole, i) + rest[i..]
  }

  lemma FirstPair(text: string, head: string, rest: string, u: nat, N: nat, t: int)
    requires 2 <= N <= 9 && u < TWO_32 && HasDigits(u, N + 1)
    requires text == head + rest && |rest| >= N + 1 && t == FixedPoint(N - 1, u)
    ensures 0 <= High(t) < 100
    ensures var index := High(t);
      Written(text[|head| := DigitChar(index / 10)][|head| + 1 := DigitChar(index % 10)], head, rest, u, N, 2, t)
  {
    hide FixedPoint, Multiplier, Shift, Quotient, Pow2, Digits;
    ScaledError(N - 1, u);
    PairRange(u, N - 1, t);
    var index := High(t);
    PaddedPair(0, 0, index);
    OverwritePair(head, [], rest, DigitChar(index / 10), DigitChar(index % 10));
    assert head + [] + rest == text;
  }

  lemma NextPair(text: string, head: string, rest: string, u: nat, N: nat, i: nat, t: int)
    requires Written(text, head, rest, u, N, i, t) && i < N
    ensures var t' := 100 * Low(t);
      && 0 <= High(t') < 100
      && Written(text[|head| + i := DigitChar(High(t') / 10)][|head| + i + 1 := DigitChar(High(t') % 10)],
                 head, rest, u, N, i + 2, t')
  {
    hide Pow10, Padded, Quotient, Represents, DigitChar;
    var whole, t' := Leading(u, N + 1 - i), 100 * Low(t);
    HundredTimes(N - 1 - i);
    NextDigits(u, whole, Low(t), 100, Pow10(N - 1 - i));
    PaddedPair(whole, i, High(t'));
    OverwritePair(head, Padded(whole, i), rest[i..], DigitChar(High(t') / 10), DigitChar(High(t') % 10));
  }

  lemma LastDigit(text: string, head: string, rest: string, u: nat, N: nat, i: nat, t: int)
    requires Written(text, head, rest, u, N, i, t) && N <= i
    ensures N % 2 == 1 ==> text == head + Padded(u, N + 1) + rest[N + 1..]
    ensures N % 2 == 0 ==>
      && 0 <= High(10 * Low(t)) < 10
      && text[|head| + N := DigitChar(High(10 * Low(t)))] == head + Padded(u, N + 1) + rest[N + 1..]
  {
    if N % 2 == 0 {
      var whole := Leading(u, 1);
      assert Pow10(1) == 10 * Pow10(0) && Pow10(0) == 1;
      NextDigits(u, whole, Low(t), 10, 1);
      assert Padded(u, N + 1) == Padded(whole, N) + [DigitChar(u % 10)];
      OverwriteLast(head, Padded(whole, N), rest[N..], DigitChar(u % 10));
    } else {
      assert i == N + 1 && Pow10(0) == 1;
    }
  }

  lemma OverwriteLast(head: string, mid: string, rest: string, c: char)
    requires rest != ""
    ensures (head + mid + rest)[|head| + |mid| := c] == head + (mid + [c]) + rest[1..]
  {
  }

  lemma HundredTimes(k: nat)
    ensures Pow10(k + 2) == 100 * Pow10(k)
  {
    assert Pow10(k + 2) == 10 * Pow10(k + 1);
  }

  lemma PairRange(u: nat, n: nat, t: int)
    requires 1 <= n <= 8 && u < Pow10(n + 2) && Represents(t, u, Pow10(n))
    ensures 0 <= t && High(t) == Leading(u, n) < 100
  {
    var p := Pow10(n);
    if t <= -1 {
      MulMonotonic(t, -1, p);
      assert false;
    }
    IntegerPart(u, High(t), Low(t), p);
    HundredTimes(n);
    QuotientBelow(u, p, 100);
  }

  /** `lg` picks N = number of digits - 1 and calls `on<N>`. */
  method Lg(n: nat, h: DecimalFormatter)
    requires n < TWO_32 && h.pos + |Digits(n)| <= h.buffer.Length
    modifies h`pos, h.buffer
    ensures h.pos == old(h.pos) + |Digits(n)| && h.pos <= h.buffer.Length
    ensures h.buffer[..] == old(h.buffer[..h.pos]) + Digits(n) + old(h.buffer[..])[h.pos..]
  {
    DigitThresholds(n);
    if n < 100 {
      if n < 10 { h.On(0, n); } else { h.On(1, n); }
    } else if n < 1000000 {
      if n < 10000 {
        if n < 1000 { h.On(2, n); } else { h.On(3, n); }
      } else {
        if n < 100000 { h.On(4, n); } else { h.On(5, n); }
      }
    } else {
      if n < 100000000 {
        if n < 10000000 { h.On(6, n); } else { h.On(7, n); }
      } else {
        if n < 1000000000 { h.On(8, n); } else { h.On(9, n); }
      }
    }
  }

  lemma DigitThresholds(n: nat)
    requires n < TWO_32
    ensures HasDigits(n, |Digits(n)|) && |Digits(n)| <= 10
    ensures forall k :: 1 <= k < 10 ==> (|Digits(n)| <= k <==> n < Pow10(k))
  {
    DigitCountBounds(n);
    forall k | 1 <= k < 10
      ensures |Digits(n)| <= k <==> n < Pow10(k)
    {
      if |Digits(n)| <= k { Pow10Monotonic(|Digits(n)|, k); } else { Pow10Monotonic(k, |Digits(n)| - 1); }
    }
  }
}
