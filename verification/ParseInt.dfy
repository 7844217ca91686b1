/**
  Reading a format string: the null-terminated view of the remaining text and
  `parse_nonnegative_int`.
 */
module ParseInt {
  import opened Decimal

  const INT_MAX: nat := 0x7fff_ffff
  const UINT_RANGE: nat := 0x1_0000_0000
  const NUL: char := '\0'

  datatype Parsed<+T> = Ok(value: T, rest: string) | Error(message: string)

  /** `*it`: a NUL is read at the end of the text. */
  function Peek(text: string): char {
    if text == [] then NUL else text[0]
  }

  /** The longest digit prefix. */
  function DigitRun(text: string): (n: nat)
    ensures n <= |text| && AllDigits(text[..n])
    ensures !IsDigit(Peek(text[n..]))
  {
    if text != [] && IsDigit(text[0]) then
      var n := 1 + DigitRun(text[1..]);
      assert text[..n] == [text[0]] + text[1..][..n - 1];
      n
    else 0
  }

  /** What parsing an integer means: the value of the whole digit run, unless it exceeds INT_MAX. */
  function Integer(text: string): Parsed<nat> {
    var n := DigitRun(text);
    if Value(text[..n]) <= INT_MAX then Ok(Value(text[..n]), text[n..]) else Error("number is too big")
  }

  lemma IntegerFacts(text: string)
    ensures Integer(text).Ok? ==>
      && Integer(text).value <= INT_MAX && |Integer(text).rest| <= |text|
      && text[|text| - |Integer(text).rest|..] == Integer(text).rest
      && (IsDigit(Peek(text)) ==> |Integer(text).rest| < |text|)
  {
  }

  lemma {:induction false} RunAfterDigits(digits: string, rest: string)
    requires AllDigits(digits) && !IsDigit(Peek(rest))
    ensures DigitRun(digits + rest) == |digits|
  {
    if digits == [] {
      assert digits + rest == rest;
    } else {
      assert (digits + rest)[1..] == digits[1..] + rest;
      assert AllDigits(digits[1..]);
      RunAfterDigits(digits[1..], rest);
    }
  }

  /** Printing and parsing undo each other up to INT_MAX; beyond it parsing fails. */
  lemma IntegerOfDigits(n: nat, rest: string)
    requires !IsDigit(Peek(rest))
    ensures Integer(Digits(n) + rest) == if n < 0x8000_0000 then Ok(n, rest) else Error("number is too big")
  {
    ValueOfDigits(n);
    RunAfterDigits(Digits(n), rest);
    assert (Digits(n) + rest)[..|Digits(n)|] == Digits(n);
    assert (Digits(n) + rest)[|Digits(n)|..] == rest;
  }

  lemma {:induction false} ValueGrows(s: string, k: nat)
    requires AllDigits(s) && k <= |s|
    ensures AllDigits(s[..k]) && Value(s[..k]) <= Value(s)
  {
    if k < |s| {
      ValueGrows(s[..|s| - 1], k);
      assert s[..|s| - 1][..k] == s[..k];
    } else {
      assert s[..k] == s;
    }
  }

  lemma RunPrefix(text: string, k: nat)
    requires k < |text| && AllDigits(text[..k]) && IsDigit(text[k])
    ensures k < DigitRun(text)
  {
    forall i | 0 <= i <= k
      ensures IsDigit(Peek(text[i..]))
    {
      if i < k {
        assert text[..k][i] == text[i];
      }
    }
  }

  /**
    `parse_nonnegative_int` on 32-bit unsigned arithmetic.  The guard against
    `big` keeps every product below 2^32, so no digit string wraps.
   */
  method ParseNonnegativeInt(text: string) returns (r: Parsed<nat>)
    requires IsDigit(Peek(text))
    ensures r == Integer(text)
  {
    var value: nat := 0;
    var big := INT_MAX / 10;
    var it := 0;
    var tooBig := false;
    var more := true;
    while more
      invariant it <= |text| && AllDigits(text[..it]) && value == Value(text[..it]) < UINT_RANGE
      invariant more ==> it < |text| && IsDigit(text[it])
      invariant !more ==> it == DigitRun(text)
      decreases |text| - it, more
    {
      RunPrefix(text, it);
      if value > big {
        value := INT_MAX + 1;
        tooBig := true;
        break;
      }
      assert text[..it + 1][..it] == text[..it];
      value := (value * 10 + DigitValue(text[it])) % UINT_RANGE;
      it := it + 1;
      more := IsDigit(Peek(text[it..]));
      if !more {
        EndOfRun(text, it);
      }
    }
    if tooBig {
      BeyondMax(text, it);
    }
    r := if value > INT_MAX then Error("number is too big") else Ok(value, text[it..]);
  }

  lemma EndOfRun(text: string, k: nat)
    requires k <= |text| && AllDigits(text[..k]) && !IsDigit(Peek(text[k..]))
    ensures DigitRun(text) == k
  {
    assert text == text[..k] + text[k..];
    RunAfterDigits(text[..k], text[k..]);
  }

  lemma BeyondMax(text: string, k: nat)
    requires k < DigitRun(text) && AllDigits(text[..k]) && Value(text[..k]) > INT_MAX / 10
    ensures Value(text[..DigitRun(text)]) > INT_MAX
  {
    var run := text[..DigitRun(text)];
    assert run[..k + 1][..k] == text[..k];
    ValueGrows(run, k + 1);
    assert Value(run[..k + 1]) == 10 * Value(text[..k]) + DigitValue(run[k]);
  }
}
