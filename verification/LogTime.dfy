/** The parts of a log message that patterns print: `log_msg`, `std::tm` and the padding helpers of `fmt_helper`. */
module LogTime {
  import opened Decimal
  import Arithmetic
  import DecimalWriting

  type Weekday = n: nat | n < 7

  type Month = n: nat | n < 12

  type Level = n: nat | n < 7

  /** The fields of std::tm that are printed; `gmtoff` is in seconds. */
  datatype Tm = Tm(sec: int, min: int, hour: int, mday: int, mon: Month, year: int, wday: Weekday, gmtoff: int)

  const ZERO_TM := Tm(0, 0, 0, 0, 0, 0, 0, 0)

  /** `time` is in nanoseconds since the epoch. */
  datatype Message = Message(loggerName: string, level: Level, time: int, threadId: nat, id: nat, raw: string)

  const LEVEL_NAMES: seq<string> := ["trace", "debug", "info", "warning", "error", "critical", "off"]
  const SHORT_LEVEL_NAMES: seq<string> := ["T", "D", "I", "W", "E", "C", "O"]
  const DAYS: seq<string> := ["Sun", "Mon", "Tue", "Wed", "Thu", "Fri", "Sat"]
  const FULL_DAYS: seq<string> := ["Sunday", "Monday", "Tuesday", "Wednesday", "Thursday", "Friday", "Saturday"]
  const MONTHS: seq<string> := ["Jan", "Feb", "Mar", "Apr", "May", "Jun", "Jul", "Aug", "Sept", "Oct", "Nov", "Dec"]
  const FULL_MONTHS: seq<string> := [
    "January", "February", "March", "April", "May", "June",
    "July", "August", "September", "October", "November", "December"]

  /** Short names begin the full ones: three letters, but four for September; levels have their initials. */
  lemma NamesAbbreviate(day: Weekday, month: Month, level: Level)
    ensures DAYS[day] == FULL_DAYS[day][..3]
    ensures MONTHS[month] == FULL_MONTHS[month][..if month == 8 then 4 else 3]
    ensures |SHORT_LEVEL_NAMES[level]| == 1 && SHORT_LEVEL_NAMES[level][0] == LEVEL_NAMES[level][0] - ' '
  {
    AllDays();
    AllMonths();
    AllLevels();
    hide *;
  }

  lemma AllDays()
    ensures forall d: Weekday :: |FULL_DAYS[d]| >= 3 && DAYS[d] == FULL_DAYS[d][..3]
  {
  }

  lemma AllMonths()
    ensures forall m: Month ::
      |FULL_MONTHS[m]| >= (if m == 8 then 4 else 3) && MONTHS[m] == FULL_MONTHS[m][..if m == 8 then 4 else 3]
  {
  }

  lemma AllLevels()
    ensures forall l: Level ::
      && |SHORT_LEVEL_NAMES[l]| == 1 && LEVEL_NAMES[l] != "" && LEVEL_NAMES[l][0] >= ' '
      && SHORT_LEVEL_NAMES[l][0] == LEVEL_NAMES[l][0] - ' '
  {
  }

  const TWO_64 := 0x1_0000_0000_0000_0000

  /** C++ division and duration_cast cut towards zero. */
  function Quotient(n: int, d: nat): int
    requires d > 0
  {
    if n < 0 then 0 - (0 - n) / d else n / d
  }

  function Remainder(n: int, d: nat): int
    requires d > 0
  {
    n - Quotient(n, d) * d
  }

  function Seconds(m: Message): int {
    Quotient(m.time, 1_000_000_000)
  }

  /** time_fraction: the part of the time below one second in units of 10^9 / `unit` nanoseconds. */
  function Fraction(m: Message, unit: nat): int
    requires unit > 0
  {
    Quotient(m.time, unit) - Quotient(Seconds(m) * 1_000_000_000, unit)
  }

  /** What is left of the time beyond its whole seconds, in nanoseconds. */
  function BelowSecond(m: Message): int {
    m.time - Seconds(m) * 1_000_000_000
  }

  lemma QuotientLeaves(n: int, d: nat)
    requires d > 0
    ensures var r := n - Quotient(n, d) * d;
      0 - d < r < d && (n >= 0 ==> r >= 0 && Quotient(n, d) >= 0) && (n <= 0 ==> r <= 0 && Quotient(n, d) <= 0)
  {
    var size := if n < 0 then -n else n;
    SizeLeaves(size, d);
    Arithmetic.MulDistributes(0 - size / d, size / d, d);
  }

  lemma SizeLeaves(size: nat, d: nat)
    requires d > 0
    ensures 0 <= size - size / d * d < d && size / d >= 0
  {
    assert size == size / d * d + size % d;
  }

  /** The time is its whole seconds and a remainder of the same sign, less than a second in size. */
  lemma TimeSplits(m: Message)
    ensures m.time == Seconds(m) * 1_000_000_000 + BelowSecond(m)
    ensures -1_000_000_000 < BelowSecond(m) < 1_000_000_000
    ensures m.time >= 0 ==> Seconds(m) >= 0 && BelowSecond(m) >= 0
    ensures m.time <= 0 ==> Seconds(m) <= 0 && BelowSecond(m) <= 0
  {
    QuotientLeaves(m.time, 1_000_000_000);
    hide Quotient;
  }

  lemma QuotientIs(n: int, d: nat, q: int)
    requires d > 0 && 0 - d < n - q * d < d
    requires n >= 0 ==> q * d <= n
    requires n <= 0 ==> q * d >= n
    ensures Quotient(n, d) == q
  {
    if n >= 0 {
      Arithmetic.QuotientIs(n, d, q);
    } else {
      Arithmetic.MulDistributes(q, -q, d);
      Arithmetic.QuotientIs(-n, d, -q);
    }
  }

  /** A fraction is the remainder below the second, in its unit and cut towards zero. */
  lemma FractionIs(m: Message, unit: nat, parts: nat)
    requires unit > 0 && unit * parts == 1_000_000_000
    ensures Fraction(m, unit) == Quotient(BelowSecond(m), unit)
    ensures m.time >= 0 ==> 0 <= Fraction(m, unit) < parts && Fraction(m, unit) == BelowSecond(m) / unit
  {
    var secs, rest := Seconds(m), BelowSecond(m);
    var q := Quotient(rest, unit);
    TimeSplits(m);
    QuotientLeaves(rest, unit);
    WholeSeconds(secs, unit, parts);
    QuotientOfSum(m.time, secs, rest, unit, parts);
    if m.time >= 0 {
      FewParts(rest, unit, parts, q);
    }
    hide Seconds, BelowSecond;
  }

  lemma WholeSeconds(secs: int, unit: nat, parts: nat)
    requires unit > 0 && unit * parts == 1_000_000_000
    ensures secs * 1_000_000_000 == secs * parts * unit && Quotient(secs * 1_000_000_000, unit) == secs * parts
  {
    assert secs * (parts * unit) == secs * parts * unit;
    QuotientIs(secs * parts * unit, unit, secs * parts);
    hide Quotient;
  }

  lemma QuotientOfSum(time: int, secs: int, rest: int, unit: nat, parts: nat)
    requires unit > 0 && unit * parts == 1_000_000_000 && time == secs * 1_000_000_000 + rest
    requires time >= 0 ==> rest >= 0
    requires time <= 0 ==> rest <= 0
    ensures Quotient(time, unit) == secs * parts + Quotient(rest, unit)
  {
    var q := Quotient(rest, unit);
    QuotientLeaves(rest, unit);
    WholeSeconds(secs, unit, parts);
    Arithmetic.MulDistributes(secs * parts, q, unit);
    QuotientIs(time, unit, secs * parts + q);
    hide Quotient;
  }

  lemma FewParts(rest: int, unit: nat, parts: nat, q: int)
    requires 0 <= rest < unit * parts && q * unit <= rest && unit > 0
    ensures q < parts
  {
    if q >= parts {
      Arithmetic.MulMonotonic(parts, q, unit);
      assert false;
    }
  }

  // ----- padding -----

  function AppendInt(n: int): string {
    DecimalWriting.SignedText(n)
  }

  /** What the format string with 0 and a width makes of a number: zeros between the sign and the digits. */
  function ZeroFilled(n: int, width: nat): string {
    var sign, digits := if n < 0 then "-" else "", Digits(if n < 0 then -n else n);
    sign + seq(if |sign| + |digits| < width then width - |sign| - |digits| else 0, _ => '0') + digits
  }

  function Pad2(n: int): string {
    if n > 99 then AppendInt(n)
    else if n > 9 then [DigitChar(n / 10), DigitChar(n % 10)]
    else if n >= 0 then ['0', DigitChar(n)]
    else ZeroFilled(n, 2)
  }

  function Pad3(n: int): string {
    if n > 999 then AppendInt(n)
    else if n > 99 then AppendInt(n / 100) + Pad2(n % 100)
    else if n > 9 then ['0', DigitChar(n / 10), DigitChar(n % 10)]
    else if n >= 0 then ['0', '0', DigitChar(n)]
    else ZeroFilled(n, 3)
  }

  function Pad6(n: nat): string {
    if n > 99999 then AppendInt(n) else Pad3(n / 1000) + Pad3(n % 1000)
  }

  /** `n` without its last `k` digits. */
  function WithoutDigits(n: nat, k: nat): nat {
    if k == 0 then n else WithoutDigits(n / 10, k - 1)
  }

  lemma {:induction false} PaddedSplit(n: nat, j: nat, k: nat)
    ensures Padded(n, j + k) == Padded(WithoutDigits(n, k), j) + Padded(n, k)
    decreases k
  {
    if k > 0 {
      PaddedSplit(n / 10, j, k - 1);
      assert Padded(n, j + k) == Padded(n / 10, j + k - 1) + [DigitChar(n % 10)];
      assert Padded(n, k) == Padded(n / 10, k - 1) + [DigitChar(n % 10)];
      assert WithoutDigits(n, k) == WithoutDigits(n / 10, k - 1);
      hide *;
    }
  }

  lemma {:induction false} NoDigitsLeft(n: nat, k: nat)
    requires n < Pow10(k)
    ensures WithoutDigits(n, k) == 0
  {
    if k > 0 {
      NoDigitsLeft(n / 10, k - 1);
    }
  }

  lemma WithoutFew(n: nat)
    ensures WithoutDigits(n, 2) == n / 100 && WithoutDigits(n, 3) == n / 1000
  {
    assert WithoutDigits(n, 2) == WithoutDigits(n / 10, 1) == WithoutDigits(n / 10 / 10, 0);
    assert WithoutDigits(n, 3) == WithoutDigits(n / 10, 2) == WithoutDigits(n / 100, 1) == WithoutDigits(n / 1000, 0);
  }

  lemma {:induction false} PaddedRemainder(n: nat, k: nat)
    ensures Padded(n % Pow10(k), k) == Padded(n, k)
  {
    if k > 0 {
      var p := Pow10(k - 1);
      RemainderTwice(n, p);
      PaddedRemainder(n / 10, k - 1);
    }
  }

  lemma RemainderTwice(n: nat, p: nat)
    requires p > 0
    ensures n % (10 * p) / 10 == n / 10 % p && n % (10 * p) % 10 == n % 10
  {
    var q, r := n / 10 / p, n / 10 % p;
    assert n / 10 == q * p + r;
    assert q * (10 * p) == 10 * (q * p);
    assert n == q * (10 * p) + (10 * r + n % 10);
    Arithmetic.QuotientIs(n, 10 * p, q);
  }

  lemma {:induction false} PaddedZero(k: nat)
    ensures Padded(0, k) == seq(k, _ => '0')
  {
    if k > 0 {
      PaddedZero(k - 1);
    }
  }

  lemma PaddedIsFilled(n: nat, k: nat)
    requires k >= 1 && n < Pow10(k)
    ensures Padded(n, k) == ZeroFilled(n, k)
  {
    var d := |Digits(n)|;
    FewDigits(n, k);
    DigitCountBounds(n);
    DigitsArePadded(n);
    PaddedSplit(n, k - d, d);
    NoDigitsLeft(n, d);
    PaddedZero(k - d);
    FilledWithZeros(n, k);
    hide *;
  }

  lemma {:induction false} FewDigits(n: nat, k: nat)
    requires k >= 1 && n < Pow10(k)
    ensures |Digits(n)| <= k
  {
    if n >= 10 {
      FewDigits(n / 10, k - 1);
    }
  }

  lemma FilledWithZeros(n: nat, k: nat)
    requires |Digits(n)| <= k
    ensures ZeroFilled(n, k) == seq(k - |Digits(n)|, _ => '0') + Digits(n)
  {
    hide Digits;
  }

  lemma WideIsFilled(n: nat, k: nat)
    requires k >= 1 && Pow10(k) <= n
    ensures AppendInt(n) == ZeroFilled(n, k)
  {
    var d := |Digits(n)|;
    DigitCountBounds(n);
    if d <= k {
      Pow10Monotonic(d, k);
      assert false;
    }
    hide Digits, Pow10;
  }

  lemma SmallPowers()
    ensures Pow10(1) == 10 && Pow10(2) == 100 && Pow10(3) == 1000 && Pow10(5) == 100000
  {
    assert Pow10(4) == 10000;
  }

  lemma TwoDigits(n: nat)
    requires n < 100
    ensures Padded(n, 2) == [DigitChar(n / 10), DigitChar(n % 10)] && Pad2(n) == Padded(n, 2)
  {
    assert Padded(n / 10, 1) == Padded(n / 10 / 10, 0) + [DigitChar(n / 10 % 10)];
  }

  lemma ThreeDigits(n: nat)
    requires n < 1000
    ensures Pad3(n) == Padded(n, 3)
  {
    SmallPowers();
    PaddedSplit(n, 1, 2);
    WithoutFew(n);
    PaddedRemainder(n, 2);
    TwoDigits(n % 100);
    assert Padded(n / 100, 1) == Padded(n / 1000, 0) + [DigitChar(n / 100)];
    if n >= 100 {
      assert AppendInt(n / 100) == [DigitChar(n / 100)];
    }
    hide Padded, Pad2, Pow10, WithoutDigits, AppendInt, ZeroFilled;
  }

  lemma SixDigits(n: nat)
    requires n < 100000
    ensures Pad6(n) == Padded(n, 6)
  {
    SmallPowers();
    PaddedSplit(n, 3, 3);
    WithoutFew(n);
    PaddedRemainder(n, 3);
    ThreeDigits(n / 1000);
    ThreeDigits(n % 1000);
    hide Padded, Pad3, Pow10, WithoutDigits;
  }

  /** The hand-written padding prints what the format strings {:02}, {:03} and {:06} would, for every number. */
  lemma PaddingIsZeroFill(n: int)
    ensures Pad2(n) == ZeroFilled(n, 2) && Pad3(n) == ZeroFilled(n, 3)
    ensures n >= 0 ==> Pad6(n) == ZeroFilled(n, 6)
  {
    if n >= 0 {
      SmallPowers();
      if n < 100 { TwoDigits(n); PaddedIsFilled(n, 2); } else { WideIsFilled(n, 2); }
      if n < 1000 { ThreeDigits(n); PaddedIsFilled(n, 3); } else { WideIsFilled(n, 3); }
      if n < 100000 {
        SixDigits(n);
        Pow10Monotonic(5, 6);
        PaddedIsFilled(n, 6);
      } else {
        FilledToSix(n);
      }
    }
    hide Padded, ZeroFilled, Pow10, AppendInt;
  }

  /** A number of six digits or more needs no filling. */
  lemma FilledToSix(n: nat)
    requires n >= 100000
    ensures Pad6(n) == ZeroFilled(n, 6)
  {
    SmallPowers();
    DigitCountBounds(n);
    if |Digits(n)| <= 5 {
      Pow10Monotonic(|Digits(n)|, 5);
      assert false;
    }
    hide Digits, Pow10;
  }

  // ----- the digits below the second -----

  lemma Thousands(n: nat)
    ensures WithoutDigits(n, 3) == n / 1000 && WithoutDigits(n, 6) == n / 1_000_000
  {
    WithoutFew(n);
    WithoutFew(n / 1000);
    assert WithoutDigits(n, 6) == WithoutDigits(n / 10, 5);
    assert WithoutDigits(n / 10, 5) == WithoutDigits(n / 10 / 10, 4);
    assert WithoutDigits(n / 10 / 10, 4) == WithoutDigits(n / 10 / 10 / 10, 3);
    assert n / 10 / 10 / 10 == n / 1000;
  }

  lemma MorePowers()
    ensures Pow10(3) == 1000 && Pow10(6) == 1_000_000 && Pow10(9) == 1_000_000_000
  {
    assert Pow10(4) == 10000;
    assert Pow10(7) == 10000000;
  }

  /** For n nanoseconds of a second: nine digits, and their first six and three. */
  lemma LeadingDigits(n: nat)
    requires n < 1_000_000_000
    ensures |Padded(n, 9)| == 9 && ZeroFilled(n, 9) == Padded(n, 9)
    ensures Pad6(n / 1000) == Padded(n, 9)[..6] && Pad3(n / 1_000_000) == Padded(n, 9)[..3]
  {
    MorePowers();
    Thousands(n);
    hide Padded, ZeroFilled, Pad3, Pad6, Pow10, WithoutDigits;
    PaddedIsFilled(n, 9);
    PaddingIsZeroFill(n / 1000);
    PaddedIsFilled(n / 1000, 6);
    PaddedSplit(n, 6, 3);
    PaddingIsZeroFill(n / 1_000_000);
    PaddedIsFilled(n / 1_000_000, 3);
    PaddedSplit(n, 3, 6);
  }

  /** The three units in use, from the epoch on. */
  lemma FractionsUsed(m: Message)
    requires m.time >= 0
    ensures 0 <= BelowSecond(m) < 1_000_000_000
    ensures 0 <= Fraction(m, 1) < 1_000_000_000 && Fraction(m, 1) == BelowSecond(m)
    ensures 0 <= Fraction(m, 1000) < 1_000_000 && Fraction(m, 1000) == BelowSecond(m) / 1000
    ensures 0 <= Fraction(m, 1_000_000) < 1000 && Fraction(m, 1_000_000) == BelowSecond(m) / 1_000_000
  {
    hide Fraction, BelowSecond, Seconds;
    TimeSplits(m);
    FractionIs(m, 1, 1_000_000_000);
    FractionIs(m, 1000, 1_000_000);
    FractionIs(m, 1_000_000, 1000);
  }
}
