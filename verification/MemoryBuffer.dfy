/**
  `basic_buffer` and `basic_memory_buffer::grow`: a buffer that starts in an
  inline array and moves to larger heap arrays, each half as large again.
 */
module MemoryBuffer {
  import FormatString
  import opened ParseInt

  /** The capacity chosen by `grow` for a request of `size` elements. */
  function GrownCapacity(capacity: nat, size: nat): (c: nat)
    ensures c >= size && c >= capacity + capacity / 2
    ensures c <= size || c <= capacity + capacity / 2
  {
    var bigger := capacity + capacity / 2;
    if size > bigger then size else bigger
  }

  /** Growth by half, rounded down, gains at least a third: the fact behind the amortised bound. */
  lemma GainsAThird(capacity: nat, size: nat)
    requires size > capacity
    ensures 4 * capacity <= 3 * GrownCapacity(capacity, size)
  {
  }

  /** Elements moved by `n` calls of push_back on a buffer of `size` elements. */
  function PushCost(capacity: nat, size: nat, n: nat): nat
    decreases n
  {
    if n == 0 then 0
    else if size + 1 > capacity then size + PushCost(GrownCapacity(capacity, size + 1), size + 1, n - 1)
    else PushCost(capacity, size + 1, n - 1)
  }

  /** Amortised cost: with `before` moves already paid for, `n` more elements need at most 4 moves each. */
  lemma {:induction false} PushIsAmortised(capacity: nat, size: nat, n: nat, before: nat)
    requires size <= capacity && before <= 3 * capacity && before <= 4 * size
    ensures before + PushCost(capacity, size, n) <= 4 * (size + n)
    decreases n
  {
    if n > 0 {
      if size + 1 > capacity {
        GainsAThird(capacity, size + 1);
        PushIsAmortised(GrownCapacity(capacity, size + 1), size + 1, n - 1, before + size);
      } else {
        PushIsAmortised(capacity, size + 1, n - 1, before);
      }
    }
  }

  lemma NextPush(capacity: nat, size: nat, n: nat)
    requires n > 0
    ensures PushCost(capacity, size, n) ==
      if size + 1 > capacity then size + PushCost(GrownCapacity(capacity, size + 1), size + 1, n - 1)
      else PushCost(capacity, size + 1, n - 1)
  {
  }

  class Buffer<T(0)> {
    var ptr: array<T>
    var size: nat
    var capacity: nat
    /** Elements moved by `grow` so far, and the largest number of elements ever requested. */
    ghost var copied: nat
    ghost var peak: nat

    ghost predicate Valid()
      reads this
    {
      && size <= capacity == ptr.Length
      && copied <= 3 * capacity && copied <= 4 * peak && size <= peak
    }

    ghost function Contents(): seq<T>
      requires Valid()
      reads this, ptr
    {
      ptr[..size]
    }

    /** `SIZE` elements live in the object itself. */
    constructor (inlineSize: nat)
      ensures Valid() && Contents() == [] && copied == 0 && peak == 0 && capacity == inlineSize && fresh(ptr)
    {
      ptr := new T[inlineSize];
      size, capacity, copied, peak := 0, inlineSize, 0, 0;
    }

    /** Called for `newSize` beyond the capacity: moves all elements to a larger array. */
    method Grow(newSize: nat)
      requires Valid() && newSize > capacity
      modifies this`ptr, this`capacity, this`copied, this`peak
      ensures Valid() && Contents() == old(Contents()) && fresh(ptr)
      ensures capacity == GrownCapacity(old(capacity), newSize)
      ensures copied == old(copied) + size && peak == (if newSize > old(peak) then newSize else old(peak))
    {
      GainsAThird(capacity, newSize);
      var newCapacity := capacity + capacity / 2;
      if newSize > newCapacity {
        newCapacity := newSize;
      }
      var oldData := ptr;
      var newData := new T[newCapacity];
      forall i | 0 <= i < size {
        newData[i] := oldData[i];
      }
      assert newData[..size] == oldData[..size];
      ptr, capacity := newData, newCapacity;
      copied := copied + size;
      peak := if newSize > peak then newSize else peak;
    }

    method Reserve(newCapacity: nat)
      requires Valid()
      modifies this`ptr, this`capacity, this`copied, this`peak
      ensures Valid() && Contents() == old(Contents()) && newCapacity <= capacity && (ptr == old(ptr) || fresh(ptr))
      ensures capacity ==
        if newCapacity > old(capacity) then GrownCapacity(old(capacity), newCapacity) else old(capacity)
      ensures peak == (if newCapacity > old(peak) then newCapacity else old(peak))
      ensures copied == old(copied) + (if newCapacity > old(capacity) then size else 0)
    {
      if newCapacity > capacity {
        Grow(newCapacity);
      }
      peak := if newCapacity > peak then newCapacity else peak;
    }

    method PushBack(value: T)
      requires Valid()
      modifies this, ptr
      ensures Valid() && Contents() == old(Contents()) + [value] && (ptr == old(ptr) || fresh(ptr))
      ensures peak == (if old(size) + 1 > old(peak) then old(size) + 1 else old(peak))
      ensures size == old(size) + 1
      ensures copied == old(copied) + (if size > old(capacity) then old(size) else 0)
      ensures capacity == if size > old(capacity) then GrownCapacity(old(capacity), size) else old(capacity)
    {
      Reserve(size + 1);
      ptr[size] := value;
      size := size + 1;
    }

    method Append(data: seq<T>)
      requires Valid()
      modifies this, ptr
      ensures Valid() && Contents() == old(Contents()) + data && (ptr == old(ptr) || fresh(ptr))
      ensures peak == (if old(size) + |data| > old(peak) then old(size) + |data| else old(peak))
    {
      var newSize := size + |data|;
      Reserve(newSize);
      forall i | 0 <= i < |data| {
        ptr[size + i] := data[i];
      }
      assert ptr[..newSize] == old(ptr[..size]) + data;
      size := newSize;
    }
  }

  // ----- character by character -----

  /** The text before the first NUL, by places. */
  lemma {:induction false} BeforeNulPrefix(s: string)
    ensures var n := |FormatString.BeforeNul(s)|;
      n <= |s| && FormatString.BeforeNul(s) == s[..n] && Peek(s[n..]) == NUL
    ensures forall k :: 0 <= k < |FormatString.BeforeNul(s)| ==> Peek(s[k..]) != NUL
  {
    if s != "" && s[0] != NUL {
      var rest := FormatString.BeforeNul(s[1..]);
      BeforeNulPrefix(s[1..]);
      assert FormatString.BeforeNul(s) == [s[0]] + rest;
      assert forall k :: 0 < k <= |rest| ==> s[k..] == s[1..][k - 1..];
    }
  }

  lemma OneMoreChar(was: string, s: string, i: nat)
    requires i < |s|
    ensures was + s[..i] + [s[i]] == was + s[..i + 1]
  {
    assert s[..i + 1] == s[..i] + [s[i]];
  }

  /**
    `append_c_str`: one push_back per character up to the NUL.  The elements
    moved are those of PushCost, so a buffer that paid at most four moves for
    each of its elements still does.
   */
  method AppendCStr(dest: Buffer<char>, cStr: string)
    requires dest.Valid()
    modifies dest, dest.ptr
    ensures var text := FormatString.BeforeNul(cStr);
      && dest.Valid() && dest.Contents() == old(dest.Contents()) + text
      && dest.copied == old(dest.copied) + PushCost(old(dest.capacity), old(dest.size), |text|)
      && (old(dest.copied) <= 4 * old(dest.size) ==> dest.copied <= 4 * dest.size)
  {
    ghost var n := |FormatString.BeforeNul(cStr)|;
    BeforeNulPrefix(cStr);
    if dest.copied <= 4 * dest.size {
      PushIsAmortised(dest.capacity, dest.size, n, dest.copied);
    }
    PushUpToNul(dest, cStr, n);
  }

  method PushUpToNul(dest: Buffer<char>, cStr: string, ghost n: nat)
    requires dest.Valid() && n <= |cStr|
    requires Peek(cStr[n..]) == NUL && forall k :: 0 <= k < n ==> Peek(cStr[k..]) != NUL
    modifies dest, dest.ptr
    ensures dest.Valid() && dest.Contents() == old(dest.Contents()) + cStr[..n]
    ensures dest.copied == old(dest.copied) + PushCost(old(dest.capacity), old(dest.size), n)
  {
    hide Peek, PushCost, GrownCapacity;
    ghost var was, total := dest.Contents(), dest.copied + PushCost(dest.capacity, dest.size, n);
    var i := 0;
    NoneLeft(dest.capacity, dest.size);
    assert was + cStr[..0] == was;
    while Peek(cStr[i..]) != NUL
      invariant i <= n && dest.Valid() && (dest.ptr == old(dest.ptr) || fresh(dest.ptr))
      invariant dest.Contents() == was + cStr[..i]
      invariant dest.copied + PushCost(dest.capacity, dest.size, n - i) == total
      decreases n - i
    {
      OneMoreChar(was, cStr, i);
      NextPush(dest.capacity, dest.size, n - i);
      dest.PushBack(cStr[i]);
      i := i + 1;
    }
    NoneLeft(dest.capacity, dest.size);
  }

  lemma NoneLeft(capacity: nat, size: nat)
    ensures PushCost(capacity, size, 0) == 0
  {
  }

  // ----- whole runs -----

  datatype Operation<+T> = Push(value: T) | Extend(data: seq<T>) | Ask(capacity: nat)

  /** What a plain sequence would hold. */
  function Effect<T>(contents: seq<T>, op: Operation<T>): seq<T> {
    match op
    case Push(value) => contents + [value]
    case Extend(data) => contents + data
    case Ask(_) => contents
  }

  function Run<T>(contents: seq<T>, ops: seq<Operation<T>>): seq<T> {
    if ops == [] then contents else Effect(Run(contents, ops[..|ops| - 1]), ops[|ops| - 1])
  }

  /** The largest number of elements a run asks for. */
  function Requested<T>(contents: seq<T>, ops: seq<Operation<T>>): nat {
    if ops == [] then |contents|
    else
      var before, last := ops[..|ops| - 1], ops[|ops| - 1];
      var now := if last.Ask? then last.capacity else |Run(contents, ops)|;
      if now > Requested(contents, before) then now else Requested(contents, before)
  }

  /** Any run leaves what a plain sequence would hold and moves at most four times the largest request. */
  method Perform<T(0)>(inlineSize: nat, ops: seq<Operation<T>>) returns (b: Buffer<T>)
    ensures b.Valid() && b.Contents() == Run([], ops)
    ensures b.copied <= 4 * Requested([], ops)
  {
    b := new Buffer(inlineSize);
    var i := 0;
    while i < |ops|
      invariant i <= |ops| && fresh(b) && fresh(b.ptr)
      invariant b.Valid() && b.Contents() == Run([], ops[..i]) && b.peak == Requested([], ops[..i])
    {
      assert ops[..i + 1][..i] == ops[..i];
      match ops[i] {
        case Push(value) => b.PushBack(value);
        case Extend(data) => b.Append(data);
        case Ask(capacity) => b.Reserve(capacity);
      }
      i := i + 1;
    }
    assert ops[..i] == ops;
  }
}
