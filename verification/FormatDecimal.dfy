/**
  The integer writers of fmt: `format_decimal` with its thousands-separator
  functor, the `format_int` object, and `write_decimal`.  All of them fill their
  buffer from the right, two digits at a time.
 */
module DecimalWriting {
  import opened Arithmetic
  import opened Decimal
  import opened CountDigits
  import opened DecimalFormatting

  // ----- reference: digits in groups of three -----

  function Grouped(digits: string, sep: string): string {
    if |digits| <= 3 then digits
    else Grouped(digits[..|digits| - 3], sep) + sep + digits[|digits| - 3..]
  }

  lemma {:induction false} GroupedSize(digits: string, sep: string)
    requires digits != []
    ensures |Grouped(digits, sep)| == |digits| + |sep| * ((|digits| - 1) / 3)
  {
    if |digits| > 3 {
      GroupedSize(digits[..|digits| - 3], sep);
      assert (|digits| - 1) / 3 == (|digits| - 4) / 3 + 1;
    }
  }

  lemma {:induction false} NothingGrouped(digits: string)
    ensures Grouped(digits, "") == digits
  {
    if |digits| > 3 {
      NothingGrouped(digits[..|digits| - 3]);
    }
  }

  /** A one-character separator stands exactly at every fourth place from the right, never first. */
  lemma {:induction false} SeparatorPlaces(digits: string, sep: char, i: nat)
    requires i < |Grouped(digits, [sep])|
    ensures var fromRight := |Grouped(digits, [sep])| - 1 - i;
      && (i == 0 ==> fromRight % 4 != 3)
      && (fromRight % 4 == 3 ==> Grouped(digits, [sep])[i] == sep)
      && (fromRight % 4 != 3 ==>
            && fromRight - fromRight / 4 < |digits|
            && Grouped(digits, [sep])[i] == digits[|digits| - 1 - (fromRight - fromRight / 4)])
  {
    if |digits| > 3 {
      var front, last := digits[..|digits| - 3], digits[|digits| - 3..];
      assert Grouped(digits, [sep]) == Grouped(front, [sep]) + [sep] + last;
      hide Grouped;
      if i < |Grouped(front, [sep])| {
        SeparatorPlaces(front, sep, i);
      }
    }
  }

  /** Deletes the character at every fourth place from the right. */
  function WithoutSeparators(text: string): string {
    if |text| <= 3 then text
    else WithoutSeparators(text[..|text| - 4]) + text[|text| - 3..]
  }

  lemma {:induction false} GroupingIsReversible(digits: string, sep: char)
    ensures WithoutSeparators(Grouped(digits, [sep])) == digits
  {
    if |digits| > 3 {
      var front := digits[..|digits| - 3];
      GroupingIsReversible(front, sep);
      var text := Grouped(digits, [sep]);
      assert text[..|text| - 4] == Grouped(front, [sep]);
      assert text[|text| - 3..] == digits[|digits| - 3..];
    }
  }

  // ----- what the right-to-left loop produces -----

  /** The text once the remaining value `v` is written before `suffix`, which holds `k` digits. */
  function Emit(v: nat, k: nat, suffix: string, sep: string): (text: string)
    ensures |text| > |suffix|
  {
    if v < 10 then [DigitChar(v)] + suffix
    else Emit(v / 10, k + 1, AfterDigit(k + 1, [DigitChar(v % 10)] + suffix, sep), sep)
  }

  /** The functor's effect after the `count`-th digit. */
  function AfterDigit(count: nat, text: string, sep: string): string {
    if count % 3 == 0 then sep + text else text
  }

  /** `digits` with separators placed as if `k` more digits followed. */
  function Inserted(digits: string, k: nat, sep: string): string {
    if |digits| <= 1 then digits
    else Inserted(digits[..|digits| - 1], k + 1, sep) + AfterDigit(k + 1, [digits[|digits| - 1]], sep)
  }

  lemma {:induction false} EmitIsInserted(v: nat, k: nat, suffix: string, sep: string)
    ensures Emit(v, k, suffix, sep) == Inserted(Digits(v), k, sep) + suffix
  {
    if v >= 10 {
      var digit := [DigitChar(v % 10)];
      EmitIsInserted(v / 10, k + 1, AfterDigit(k + 1, digit + suffix, sep), sep);
      InsertedLast(v, k, sep);
      AfterDigitAppends(k + 1, DigitChar(v % 10), suffix, sep);
      Associates(Inserted(Digits(v / 10), k + 1, sep), AfterDigit(k + 1, digit, sep), suffix);
      hide Inserted, Digits, AfterDigit;
    }
  }

  lemma InsertedLast(v: nat, k: nat, sep: string)
    requires v >= 10
    ensures Inserted(Digits(v), k, sep)
         == Inserted(Digits(v / 10), k + 1, sep) + AfterDigit(k + 1, [DigitChar(v % 10)], sep)
  {
    assert Digits(v)[..|Digits(v)| - 1] == Digits(v / 10);
    hide AfterDigit;
  }

  lemma Associates(a: string, b: string, c: string)
    ensures a + b + c == a + (b + c)
  {
  }

  lemma AfterDigitAppends(count: nat, digit: char, suffix: string, sep: string)
    ensures AfterDigit(count, [digit] + suffix, sep) == AfterDigit(count, [digit], sep) + suffix
  {
    Associates(sep, [digit], suffix);
  }

  lemma {:induction false} InsertedPeriod(digits: string, k: nat, sep: string)
    ensures Inserted(digits, k + 3, sep) == Inserted(digits, k, sep)
  {
    if |digits| > 1 {
      InsertedPeriod(digits[..|digits| - 1], k + 1, sep);
    }
  }

  lemma {:induction false} InsertedIsGrouped(digits: string, sep: string)
    ensures Inserted(digits, 0, sep) == Grouped(digits, sep)
  {
    if |digits| <= 3 {
      LastThree(digits, sep);
      hide Inserted;
    } else {
      var front, last := digits[..|digits| - 3], digits[|digits| - 3..];
      assert Grouped(digits, sep) == Grouped(front, sep) + sep + last;
      hide *;
      LastThree(digits, sep);
      InsertedPeriod(front, 0, sep);
      InsertedIsGrouped(front, sep);
    }
  }

  lemma InsertedStep(digits: string, k: nat, sep: string)
    requires |digits| > 1
    ensures var n := |digits|;
      Inserted(digits, k, sep) == Inserted(digits[..n - 1], k + 1, sep) + AfterDigit(k + 1, [digits[n - 1]], sep)
  {
  }

  lemma LastThree(digits: string, sep: string)
    ensures |digits| <= 3 ==> Inserted(digits, 0, sep) == digits
    ensures |digits| > 3 ==>
      Inserted(digits, 0, sep) == Inserted(digits[..|digits| - 3], 3, sep) + sep + digits[|digits| - 3..]
  {
    if |digits| > 3 {
      ThreeOfMany(digits, sep);
    } else if |digits| > 1 {
      AtMostThree(digits, sep);
    }
    hide AfterDigit;
  }

  lemma AtMostThree(digits: string, sep: string)
    requires 1 < |digits| <= 3
    ensures Inserted(digits, 0, sep) == digits
  {
    InsertedStep(digits, 0, sep);
    var front := digits[..|digits| - 1];
    if |digits| == 3 {
      InsertedStep(front, 1, sep);
    }
  }

  lemma ThreeOfMany(digits: string, sep: string)
    requires |digits| > 3
    ensures Inserted(digits, 0, sep) == Inserted(digits[..|digits| - 3], 3, sep) + sep + digits[|digits| - 3..]
  {
    var n := |digits|;
    InsertedStep(digits, 0, sep);
    InsertedStep(digits[..n - 1], 1, sep);
    InsertedStep(digits[..n - 2], 2, sep);
    assert digits[..n - 1][..n - 2] == digits[..n - 2] && digits[..n - 2][..n - 3] == digits[..n - 3];
    ThreeDigits(digits, 3);
    hide Inserted;
    assert AfterDigit(3, [digits[n - 3]], sep) == sep + [digits[n - 3]];
    assert AfterDigit(2, [digits[n - 2]], sep) == [digits[n - 2]];
    assert AfterDigit(1, [digits[n - 1]], sep) == [digits[n - 1]];
    Regroup(Inserted(digits[..n - 3], 3, sep), sep, digits[n - 3], digits[n - 2], digits[n - 1]);
    hide *;
  }

  lemma ThreeDigits(digits: string, k: nat)
    requires k == 3 <= |digits|
    ensures var n := |digits|; digits[n - 3..] == [digits[n - 3], digits[n - 2], digits[n - 1]]
  {
  }

  lemma Regroup(text: string, sep: string, a: char, b: char, c: char)
    ensures text + (sep + [a]) + [b] + [c] == text + sep + [a, b, c]
  {
  }

  lemma EmitFormsGroups(v: nat, sep: string)
    ensures Emit(v, 0, [], sep) == Grouped(Digits(v), sep)
  {
    EmitIsInserted(v, 0, [], sep);
    InsertedIsGrouped(Digits(v), sep);
  }

  function PairText(index: nat, count: nat, text: string, sep: string): string
    requires index < 100
  {
    [DigitChar(index / 10)] + AfterDigit(count, [DigitChar(index % 10)] + text, sep)
  }

  lemma EmitTwo(v: nat, k: nat, suffix: string, sep: string)
    requires v >= 100
    ensures var pair := PairText(v % 100, k + 1, suffix, sep);
      && |pair| <= |AfterDigit(k + 2, pair, sep)| < |Emit(v, k, suffix, sep)|
      && Emit(v / 100, k + 2, AfterDigit(k + 2, pair, sep), sep) == Emit(v, k, suffix, sep)
  {
    hide Digits, Pow10;
    var first := AfterDigit(k + 1, [DigitChar(v % 10)] + suffix, sep);
    assert Emit(v, k, suffix, sep) == Emit(v / 10, k + 1, first, sep);
    assert v / 10 / 10 == v / 100;
    assert Emit(v / 10, k + 1, first, sep)
        == Emit(v / 100, k + 2, AfterDigit(k + 2, [DigitChar(v / 10 % 10)] + first, sep), sep);
    assert v % 100 % 10 == v % 10 && v % 100 / 10 == v / 10 % 10;
  }

  lemma EmitLast(v: nat, k: nat, suffix: string, sep: string)
    requires v < 100
    ensures Emit(v, k, suffix, sep) == if v < 10 then [DigitChar(v)] + suffix else PairText(v, k + 1, suffix, sep)
  {
  }

  // ----- the code -----

  /** Cells [start, end) belong to the writer; it has filled [p, end) with `text` and touched nothing outside. */
  ghost predicate Filled(cells: string, before: string, start: nat, p: nat, end: nat, text: string) {
    && start <= p <= end <= |cells| == |before|
    && cells[..start] == before[..start] && cells[end..] == before[end..]
    && cells[p..end] == text
  }

  lemma FilledBounds(cells: string, before: string, start: nat, p: nat, end: nat, text: string)
    requires Filled(cells, before, start, p, end, text)
    ensures start <= p <= end <= |cells| && |text| == end - p
  {
  }

  lemma FillMore(cells: string, before: string, start: nat, p: nat, end: nat, text: string, more: string)
    requires Filled(cells, before, start, p, end, text) && start + |more| <= p
    ensures Filled(cells[..p - |more|] + more + cells[p..], before, start, p - |more|, end, more + text)
  {
    var q := p - |more|;
    var cells' := cells[..q] + more + cells[p..];
    assert cells'[..start] == cells[..start];
    assert cells'[end..] == cells[end..];
    assert cells'[q..end] == more + cells[p..end];
  }

  /** `*--buffer = c` */
  method Put(buf: array<char>, p: nat, c: char,
             ghost before: string, ghost start: nat, ghost end: nat, ghost text: string)
    returns (p': nat)
    requires Filled(buf[..], before, start, p, end, text) && start < p
    modifies buf
    ensures p' == p - 1 && Filled(buf[..], before, start, p', end, [c] + text)
  {
    ghost var cells := buf[..];
    p' := p - 1;
    buf[p'] := c;
    FillMore(cells, before, start, p, end, text, [c]);
    assert buf[..] == cells[..p'] + [c] + cells[p..];
  }

  /** `std::uninitialized_copy` of `s` to the cells from `at` on. */
  method CopyTo(buf: array<char>, at: nat, s: string)
    requires at + |s| <= buf.Length
    modifies buf
    ensures buf[..] == old(buf[..])[..at] + s + old(buf[..])[at + |s|..]
  {
    forall i | 0 <= i < |s| {
      buf[at + i] := s[i];
    }
  }

  /** `add_thousands_sep`; with an empty separator it behaves as `no_thousands_sep`. */
  class AddThousandsSep {
    const sep: string
    var digitIndex: nat

    constructor (s: string)
      ensures sep == s && digitIndex == 0
    {
      sep, digitIndex := s, 0;
    }

    /** operator(): the pointer `p` moves left over a separator after every third digit. */
    method Call(buf: array<char>, p: nat, ghost before: string, ghost start: nat, ghost end: nat, ghost text: string)
      returns (p': nat)
      requires Filled(buf[..], before, start, p, end, text)
      requires start + |AfterDigit(digitIndex + 1, text, sep)| <= end
      modifies this`digitIndex, buf
      ensures digitIndex == old(digitIndex) + 1
      ensures Filled(buf[..], before, start, p', end, AfterDigit(digitIndex, text, sep))
    {
      hide Filled;
      digitIndex := digitIndex + 1;
      if digitIndex % 3 != 0 {
        return p;
      }
      p' := Separate(buf, p, before, start, end, text);
    }

    method Separate(buf: array<char>, p: nat,
                    ghost before: string, ghost start: nat, ghost end: nat, ghost text: string)
      returns (p': nat)
      requires Filled(buf[..], before, start, p, end, text) && start + |sep + text| <= end
      modifies buf
      ensures Filled(buf[..], before, start, p', end, sep + text)
    {
      FilledBounds(buf[..], before, start, p, end, text);
      FillMore(buf[..], before, start, p, end, text, sep);
      hide Filled;
      p' := p - |sep|;
      CopyTo(buf, p', sep);
    }
  }

  /** `format_decimal(buffer, value, num_digits, sep)`; `num_digits` counts the separators too. */
  method FormatDecimal(buf: array<char>, start: nat, value: nat, numDigits: nat, separator: string) returns (end: nat)
    requires numDigits == |Grouped(Digits(value), separator)|
    requires start + numDigits <= buf.Length
    modifies buf
    ensures end == start + numDigits
    ensures Filled(buf[..], old(buf[..]), start, start, end, Grouped(Digits(value), separator))
  {
    hide *;
    EmitFormsGroups(value, separator);
    end := EmitDigits(buf, start, value, numDigits, separator);
  }

  /** on_num: counts the digits, adds one cell for each separator, and writes the groups. */
  method OnNum(buf: array<char>, it: nat, absValue: nat, width: nat, sep: char) returns (end: nat)
    requires (width == 32 && absValue < TWO_32) || (width == 64 && absValue < TWO_64)
    requires it + |Grouped(Digits(absValue), [sep])| <= buf.Length
    modifies buf
    ensures end == it + |Digits(absValue)| + (|Digits(absValue)| - 1) / 3
    ensures Filled(buf[..], old(buf[..]), it, it, end, Grouped(Digits(absValue), [sep]))
  {
    hide Grouped, Digits, Filled;
    var numDigits := CountDigitsOf(absValue, width);
    var size := numDigits + 1 * ((numDigits - 1) / 3);
    GroupedSize(Digits(absValue), [sep]);
    end := FormatDecimal(buf, it, absValue, size, [sep]);
  }

  method EmitDigits(buf: array<char>, start: nat, value: nat, numDigits: nat, separator: string) returns (end: nat)
    requires numDigits == |Emit(value, 0, "", separator)|
    requires start + numDigits <= buf.Length
    modifies buf
    ensures end == start + numDigits
    ensures Filled(buf[..], old(buf[..]), start, start, end, Emit(value, 0, "", separator))
  {
    hide Emit, AfterDigit, PairText;
    ghost var before, text, goal := buf[..], "", Emit(value, 0, "", separator);
    var sep := new AddThousandsSep(separator);
    end := start + numDigits;
    var p, v := end, value;
    while v >= 100
      invariant sep.sep == separator && Emit(v, sep.digitIndex, text, separator) == goal
      invariant Filled(buf[..], before, start, p, end, text)
      decreases v
    {
      EmitTwo(v, sep.digitIndex, text, separator);
      p, text := PutPair(buf, p, v % 100, sep, before, start, end, text);
      v := v / 100;
      p := sep.Call(buf, p, before, start, end, text);
      text := AfterDigit(sep.digitIndex, text, separator);
    }
    p := LastDigits(buf, p, v, sep, before, start, end, text);
  }

  /** What follows the loop: one digit, or two with the functor in between. */
  method LastDigits(buf: array<char>, p: nat, v: nat, sep: AddThousandsSep,
                    ghost before: string, ghost start: nat, ghost end: nat, ghost text: string)
    returns (p': nat)
    requires v < 100 && Filled(buf[..], before, start, p, end, text)
    requires start + |Emit(v, sep.digitIndex, text, sep.sep)| == end
    modifies buf, sep`digitIndex
    ensures Filled(buf[..], before, start, start, end, Emit(v, old(sep.digitIndex), text, sep.sep))
  {
    hide Emit, AfterDigit, PairText;
    EmitLast(v, sep.digitIndex, text, sep.sep);
    if v < 10 {
      p' := Put(buf, p, DigitChar(v), before, start, end, text);
      return;
    }
    ghost var text';
    p', text' := PutPair(buf, p, v, sep, before, start, end, text);
  }

  /** Two digits, the lower one followed by the functor. */
  method PutPair(buf: array<char>, p: nat, index: nat, sep: AddThousandsSep,
                 ghost before: string, ghost start: nat, ghost end: nat, ghost text: string)
    returns (p': nat, ghost text': string)
    requires index < 100 && Filled(buf[..], before, start, p, end, text)
    requires start + |PairText(index, sep.digitIndex + 1, text, sep.sep)| <= end
    modifies buf, sep`digitIndex
    ensures sep.digitIndex == old(sep.digitIndex) + 1
    ensures text' == PairText(index, sep.digitIndex, text, sep.sep)
    ensures Filled(buf[..], before, start, p', end, text')
  {
    var tens, ones := ReadPair(index);
    text' := [ones] + text;
    p' := Put(buf, p, ones, before, start, end, text);
    p' := sep.Call(buf, p', before, start, end, text');
    text' := AfterDigit(sep.digitIndex, text', sep.sep);
    p' := Put(buf, p', tens, before, start, end, text');
    text' := [tens] + text';
  }

  // ----- format_int and write_decimal -----

  /** The text of a signed number: what both writers below produce. */
  function SignedText(value: int): string {
    if value < 0 then ['-'] + Digits(-value) else Digits(value)
  }

  function ReadSigned(text: string): int
    requires text != [] && AllDigits(if text[0] == '-' then text[1..] else text)
  {
    if text[0] == '-' then 0 - Value(text[1..]) else Value(text)
  }

  lemma SignedRoundTrip(value: int)
    ensures var text := SignedText(value);
      AllDigits(if text[0] == '-' then text[1..] else text) && ReadSigned(text) == value
  {
    var magnitude := if value < 0 then -value else value;
    ValueOfDigits(magnitude);
    assert SignedText(value)[1..] == Digits(magnitude) || SignedText(value) == Digits(magnitude);
    assert IsDigit(Digits(magnitude)[0]);
  }

  /** Unsigned negation and conversion at `width` bits: the absolute value, also for the least signed number. */
  lemma NegateUnsigned(value: int, modulus: int)
    requires 0 < modulus && -modulus <= 2 * value && value < modulus
    ensures var converted := value % modulus;
      if value < 0 then (0 - converted) % modulus == -value else converted == value
  {
    if value < 0 {
      QuotientIs(value, modulus, -1);
      QuotientIs(0 - (value + modulus), modulus, -1);
    } else {
      QuotientIs(value, modulus, 0);
    }
  }

  lemma DigitsFit(value: nat)
    requires value < TWO_64
    ensures |Digits(value)| <= 20
  {
    DigitCountBounds(value);
    assert Pow10(5) == 100000 && Pow10(10) == 10000000000 && Pow10(15) == 1000000000000000;
    assert Pow10(20) == 100000000000000000000;
    if |Digits(value)| > 20 {
      Pow10Monotonic(20, |Digits(value)| - 1);
    }
  }

  lemma DigitsPair(v: nat, suffix: string)
    ensures v >= 100 ==>
      Digits(v) + suffix == Digits(v / 100) + ([DigitChar(v % 100 / 10), DigitChar(v % 100 % 10)] + suffix)
    ensures 10 <= v < 100 ==> Digits(v) == [DigitChar(v / 10), DigitChar(v % 10)]
  {
    if v >= 100 {
      assert v % 100 % 10 == v % 10 && v % 100 / 10 == v / 10 % 10 && v / 10 / 10 == v / 100;
      assert Digits(v) == Digits(v / 10) + [DigitChar(v % 10)];
      assert Digits(v / 10) == Digits(v / 100) + [DigitChar(v / 10 % 10)];
    }
  }

  class FormatInt {
    const BUFFER_SIZE: nat := 22
    const buffer: array<char>
    var str: nat

    ghost predicate Valid() {
      buffer.Length == BUFFER_SIZE
    }

    /** data() and size(): the cells from `str` up to the place kept for a terminator. */
    ghost function Text(): string
      requires Valid() && str < BUFFER_SIZE
      reads this, buffer
    {
      buffer[str..BUFFER_SIZE - 1]
    }

    constructor Unsigned(value: nat)
      requires value < TWO_64
      ensures Valid() && str < BUFFER_SIZE && Text() == SignedText(value)
    {
      buffer := new char[22];
      str := 0;
      new;
      FormatDecimal(value);
    }

    constructor Signed(value: int)
      requires -TWO_64 <= 2 * value < TWO_64
      ensures Valid() && str < BUFFER_SIZE && Text() == SignedText(value)
    {
      buffer := new char[22];
      str := 0;
      new;
      NegateUnsigned(value, TWO_64);
      var absValue := value % TWO_64;
      if value < 0 {
        absValue := (0 - absValue) % TWO_64;
      }
      FormatDecimal(absValue);
      if value < 0 {
        str := Put(buffer, str, '-', buffer[..], 0, BUFFER_SIZE - 1, Text());
      }
    }

    /** format_int::format_decimal: at most 20 digits, so a sign still fits before them. */
    method FormatDecimal(value: nat)
      requires Valid() && value < TWO_64
      modifies this, buffer
      ensures 1 <= str < BUFFER_SIZE && Text() == Digits(value)
    {
      ghost var before, text, end: nat := buffer[..], "", BUFFER_SIZE - 1;
      DigitsFit(value);
      var ptr: nat, v := BUFFER_SIZE - 1, value;
      while v >= 100
        invariant Filled(buffer[..], before, 0, ptr, end, text) && Digits(v) + text == Digits(value)
        decreases v
      {
        DigitsPair(v, text);
        ptr, text := PutTwo(buffer, ptr, v % 100, before, end, text);
        v := v / 100;
      }
      DigitsPair(v, text);
      if v < 10 {
        ptr := Put(buffer, ptr, DigitChar(v), before, 0, end, text);
      } else {
        ptr, text := PutTwo(buffer, ptr, v, before, end, text);
      }
      str := ptr;
    }
  }

  method PutTwo(buf: array<char>, p: nat, index: nat, ghost before: string, ghost end: nat, ghost text: string)
    returns (p': nat, ghost text': string)
    requires index < 100 && 2 <= p && Filled(buf[..], before, 0, p, end, text)
    modifies buf
    ensures text' == [DigitChar(index / 10), DigitChar(index % 10)] + text
    ensures Filled(buf[..], before, 0, p', end, text')
  {
    var tens, ones := ReadPair(index);
    p' := Put(buf, p, ones, before, 0, end, text);
    p' := Put(buf, p', tens, before, 0, end, [ones] + text);
    text' := [tens, ones] + text;
    assert [tens] + ([ones] + text) == text';
  }

  /**
    `write_decimal<Int>` for a 32- or 64-bit type, signed or not; `it` points at
    cells reserved in the output.  Both the sign and the reserved size come out
    right for every value, including the least signed number.
   */
  method WriteDecimal(buf: array<char>, it: nat, value: int, width: nat) returns (end: nat)
    requires Representable(value, width)
    requires it + |SignedText(value)| <= buf.Length
    modifies buf
    ensures end == it + |SignedText(value)|
    ensures Filled(buf[..], old(buf[..]), it, it, end, SignedText(value))
  {
    var absValue, numDigits := Magnitude(value, width);
    NothingGrouped(Digits(absValue));
    if value < 0 {
      ghost var before := buf[..];
      buf[it] := '-';
      end := FormatDecimal(buf, it + 1, absValue, numDigits, "");
      SignInFront(buf[..], before, it, end, Digits(absValue));
    } else {
      end := FormatDecimal(buf, it, absValue, numDigits, "");
    }
  }

  lemma SignInFront(cells: string, before: string, it: nat, end: nat, text: string)
    requires it < |before| && Filled(cells, before[it := '-'], it + 1, it + 1, end, text)
    ensures Filled(cells, before, it, it, end, ['-'] + text)
  {
    assert cells[..it] == cells[..it + 1][..it] == before[..it];
    assert cells[it] == cells[..it + 1][it] == '-';
    assert cells[it..end] == [cells[it]] + cells[it + 1..end];
  }

  /** `value` belongs to a signed or unsigned integer type of `width` bits. */
  predicate Representable(value: int, width: nat) {
    || (width == 32 && -TWO_32 <= 2 * value && value < TWO_32)
    || (width == 64 && -TWO_64 <= 2 * value && value < TWO_64)
  }

  method Magnitude(value: int, width: nat) returns (absValue: nat, numDigits: nat)
    requires Representable(value, width)
    ensures absValue == if value < 0 then -value else value
    ensures numDigits == |Digits(absValue)|
  {
    var modulus := if width == 32 then TWO_32 else TWO_64;
    NegateUnsigned(value, modulus);
    absValue := value % modulus;
    if value < 0 {
      absValue := (0 - absValue) % modulus;
    }
    numDigits := CountDigitsOf(absValue, width);
  }
}
