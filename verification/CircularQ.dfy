/**
  `circular_q`: a ring of max_items + 1 cells, one of them always free to tell
  a full ring from an empty one.  It implements a bounded sequence that drops
  its oldest element when pushed beyond its capacity, for every capacity
  including zero.
 */
module CircularQ {

  /** push_back on the bounded sequence. */
  function Pushed<T>(capacity: nat, items: seq<T>, item: T): seq<T> {
    if |items| < capacity then items + [item] else (items + [item])[1..]
  }

  /** The cells from `head` up to `tail`, going around the end. */
  function Slice<T>(cells: seq<T>, head: nat, tail: nat): (s: seq<T>)
    requires head < |cells| && tail < |cells|
    ensures |s| < |cells|
  {
    if head <= tail then cells[head..tail] else cells[head..] + cells[..tail]
  }

  function Next(i: nat, n: nat): (j: nat)
    requires i < n
    ensures j < n
  {
    (i + 1) % n
  }

  lemma NextIs(i: nat, n: nat)
    requires i < n
    ensures Next(i, n) == if i + 1 == n then 0 else i + 1
  {
    if i + 1 < n {
      SmallRemainder(i + 1, n);
    }
  }

  lemma SmallRemainder(i: nat, n: nat)
    requires i < n
    ensures i % n == i
  {
  }

  lemma SliceAppend<T>(cells: seq<T>, head: nat, tail: nat, item: T)
    requires head < |cells| && tail < |cells|
    ensures var all := Slice(cells, head, tail) + [item];
      if Next(tail, |cells|) == head
      then |all| == |cells| && all == cells[tail := item][head..] + cells[tail := item][..head]
      else Slice(cells[tail := item], head, Next(tail, |cells|)) == all
  {
    NextIs(tail, |cells|);
  }

  /** Dropping the oldest element of a ring whose cells are all in use. */
  lemma SliceOverrun<T>(cells: seq<T>, head: nat)
    requires head < |cells|
    ensures Slice(cells, Next(head, |cells|), head) == (cells[head..] + cells[..head])[1..]
  {
    NextIs(head, |cells|);
  }

  lemma SlicePop<T>(cells: seq<T>, head: nat, tail: nat)
    requires head < |cells| && tail < |cells| && head != tail
    ensures Slice(cells, head, tail) == [cells[head]] + Slice(cells, Next(head, |cells|), tail)
  {
    NextIs(head, |cells|);
  }

  lemma SliceLength<T>(cells: seq<T>, head: nat, tail: nat)
    requires head < |cells| && tail < |cells|
    ensures Slice(cells, head, tail) == [] <==> head == tail
    ensures |Slice(cells, head, tail)| == |cells| - 1 <==> Next(tail, |cells|) == head
  {
    NextIs(tail, |cells|);
  }

  class Ring<T(0)> {
    const maxItems: nat
    const v: array<T>
    var head: nat
    var tail: nat
    var overrunCounter: nat

    ghost predicate Valid()
      reads this
    {
      maxItems == v.Length && head < maxItems && tail < maxItems
    }

    ghost function Capacity(): nat
      requires Valid()
      reads this
    {
      maxItems - 1
    }

    /** The live cells, oldest first. */
    ghost function Contents(): (s: seq<T>)
      requires Valid()
      reads this, v
      ensures |s| <= Capacity()
    {
      Slice(v[..], head, tail)
    }

    constructor (capacity: nat)
      ensures Valid() && Capacity() == capacity && Contents() == [] && overrunCounter == 0 && fresh(v)
    {
      maxItems := capacity + 1;
      v := new T[capacity + 1];
      head, tail, overrunCounter := 0, 0, 0;
    }

    method PushBack(item: T)
      requires Valid()
      modifies this, v
      ensures Valid() && Contents() == Pushed(Capacity(), old(Contents()), item)
      ensures overrunCounter == old(overrunCounter) + (if |old(Contents())| < Capacity() then 0 else 1)
    {
      SliceAppend(v[..], head, tail, item);
      SliceLength(v[..], head, tail);
      SliceOverrun(v[..][tail := item], head);
      hide Slice, Next;
      v[tail] := item;
      tail := Next(tail, maxItems);
      if tail == head {
        head := Next(head, maxItems);
        overrunCounter := overrunCounter + 1;
      }
    }

    /** Undefined on an empty ring, as the source says. */
    method PopFront() returns (item: T)
      requires Valid() && Contents() != []
      modifies this`head
      ensures Valid() && old(Contents()) == [item] + Contents() && overrunCounter == old(overrunCounter)
    {
      SliceLength(v[..], head, tail);
      SlicePop(v[..], head, tail);
      hide Slice, Next;
      item := v[head];
      head := Next(head, maxItems);
    }

    method Empty() returns (b: bool)
      requires Valid()
      ensures b <==> Contents() == []
    {
      SliceLength(v[..], head, tail);
      b := tail == head;
    }

    method Full() returns (b: bool)
      requires Valid()
      ensures b <==> |Contents()| == Capacity()
    {
      SliceLength(v[..], head, tail);
      b := Next(tail, maxItems) == head;
    }
  }

  // ----- whole runs -----

  datatype Operation<+T> = Push(item: T) | Pop

  /** How an element left the ring. */
  datatype Exit<+T> = Taken(item: T) | Overrun(item: T)

  datatype History<T> = History(items: seq<T>, exits: seq<Exit<T>>)

  /** One operation on the bounded sequence; popping an empty one does nothing. */
  function Step<T>(capacity: nat, h: History<T>, op: Operation<T>): History<T> {
    match op
    case Push(item) =>
      var all := h.items + [item];
      History(Pushed(capacity, h.items, item), if |h.items| < capacity then h.exits else h.exits + [Overrun(all[0])])
    case Pop =>
      if h.items == [] then h else History(h.items[1..], h.exits + [Taken(h.items[0])])
  }

  function Run<T>(capacity: nat, ops: seq<Operation<T>>): History<T> {
    if ops == [] then History([], []) else Step(capacity, Run(capacity, ops[..|ops| - 1]), ops[|ops| - 1])
  }

  function PushedItems<T>(ops: seq<Operation<T>>): seq<T> {
    if ops == [] then []
    else PushedItems(ops[..|ops| - 1]) + (if ops[|ops| - 1].Push? then [ops[|ops| - 1].item] else [])
  }

  function ExitItems<T>(exits: seq<Exit<T>>): seq<T> {
    if exits == [] then [] else ExitItems(exits[..|exits| - 1]) + [exits[|exits| - 1].item]
  }

  function Count<T>(exits: seq<Exit<T>>, overrun: bool): nat {
    if exits == [] then 0
    else Count(exits[..|exits| - 1], overrun) + (if exits[|exits| - 1].Overrun? == overrun then 1 else 0)
  }

  function TakenItems<T>(exits: seq<Exit<T>>): seq<T> {
    if exits == [] then []
    else TakenItems(exits[..|exits| - 1]) + (if exits[|exits| - 1].Taken? then [exits[|exits| - 1].item] else [])
  }

  lemma OneExit<T>(exits: seq<Exit<T>>, exit: Exit<T>)
    ensures ExitItems(exits + [exit]) == ExitItems(exits) + [exit.item]
    ensures Count(exits + [exit], exit.Overrun?) == Count(exits, exit.Overrun?) + 1
    ensures Count(exits + [exit], !exit.Overrun?) == Count(exits, !exit.Overrun?)
    ensures TakenItems(exits + [exit]) == TakenItems(exits) + (if exit.Taken? then [exit.item] else [])
  {
    assert (exits + [exit])[..|exits|] == exits;
  }

  ghost predicate Balanced<T>(pushed: seq<T>, h: History<T>) {
    && pushed == ExitItems(h.exits) + h.items
    && |pushed| == |TakenItems(h.exits)| + Count(h.exits, true) + |h.items|
  }

  lemma PushKeepsBalance<T>(capacity: nat, pushed: seq<T>, h: History<T>, item: T)
    requires Balanced(pushed, h)
    ensures Balanced(pushed + [item], Step(capacity, h, Push(item)))
  {
    var all := h.items + [item];
    OneExit(h.exits, Overrun(all[0]));
    hide ExitItems, TakenItems, Count;
    if |h.items| < capacity {
      assert ExitItems(h.exits) + (h.items + [item]) == (ExitItems(h.exits) + h.items) + [item];
    } else {
      assert (ExitItems(h.exits) + [all[0]]) + all[1..] == ExitItems(h.exits) + all;
      assert ExitItems(h.exits) + all == (ExitItems(h.exits) + h.items) + [item];
    }
  }

  lemma PopKeepsBalance<T>(capacity: nat, pushed: seq<T>, h: History<T>)
    requires Balanced(pushed, h)
    ensures Balanced(pushed, Step(capacity, h, Pop))
  {
    if h.items != [] {
      OneExit(h.exits, Taken(h.items[0]));
      hide ExitItems, TakenItems, Count;
      assert (ExitItems(h.exits) + [h.items[0]]) + h.items[1..] == ExitItems(h.exits) + h.items;
    }
  }

  /**
    First in, first out, with nothing lost unaccounted: what was pushed is what
    left, in order of leaving, followed by what is still there.
   */
  lemma {:induction false} FifoRun<T>(capacity: nat, ops: seq<Operation<T>>)
    ensures |Run(capacity, ops).items| <= capacity && Balanced(PushedItems(ops), Run(capacity, ops))
  {
    if ops == [] {
      assert Run(capacity, ops) == History([], []);
    } else {
      var op := ops[|ops| - 1];
      FifoRun(capacity, ops[..|ops| - 1]);
      if op.Push? {
        PushKeepsBalance(capacity, PushedItems(ops[..|ops| - 1]), Run(capacity, ops[..|ops| - 1]), op.item);
      } else {
        PopKeepsBalance(capacity, PushedItems(ops[..|ops| - 1]), Run(capacity, ops[..|ops| - 1]));
      }
      hide Balanced;
    }
  }

  /** The ring produces exactly this history; its counter is the number of overruns. */
  method Perform<T(0)>(capacity: nat, ops: seq<Operation<T>>) returns (ring: Ring<T>, taken: seq<T>)
    ensures ring.Valid() && ring.Capacity() == capacity
    ensures var h := Run(capacity, ops);
      ring.Contents() == h.items && taken == TakenItems(h.exits) && ring.overrunCounter == Count(h.exits, true)
    ensures |PushedItems(ops)| == |taken| + |ring.Contents()| + ring.overrunCounter
  {
    ring := new Ring(capacity);
    taken := [];
    var i := 0;
    while i < |ops|
      invariant i <= |ops| && fresh(ring) && fresh(ring.v) && ring.Valid() && ring.Capacity() == capacity
      invariant Mirrors(Run(capacity, ops[..i]), ring.Contents(), taken, ring.overrunCounter)
    {
      assert ops[..i + 1][..i] == ops[..i];
      ghost var h := Run(capacity, ops[..i]);
      assert Run(capacity, ops[..i + 1]) == Step(capacity, h, ops[i]);
      match ops[i] {
        case Push(item) =>
          MirrorPush(capacity, h, ring.Contents(), taken, ring.overrunCounter, item);
          ring.PushBack(item);
        case Pop =>
          MirrorPop(capacity, h, ring.Contents(), taken, ring.overrunCounter);
          var empty := ring.Empty();
          if !empty {
            var item := ring.PopFront();
            taken := taken + [item];
          }
      }
      hide Mirrors, Run;
      i := i + 1;
    }
    assert ops[..i] == ops;
    FifoRun(capacity, ops);
  }

  ghost predicate Mirrors<T>(h: History<T>, items: seq<T>, taken: seq<T>, overruns: nat) {
    items == h.items && taken == TakenItems(h.exits) && overruns == Count(h.exits, true)
  }

  lemma MirrorPush<T>(capacity: nat, h: History<T>, items: seq<T>, taken: seq<T>, overruns: nat, item: T)
    requires Mirrors(h, items, taken, overruns)
    ensures Mirrors(Step(capacity, h, Push(item)), Pushed(capacity, items, item), taken,
                    overruns + if |items| < capacity then 0 else 1)
  {
    OneExit(h.exits, Overrun((h.items + [item])[0]));
    assert taken + [] == taken;
  }

  lemma MirrorPop<T>(capacity: nat, h: History<T>, items: seq<T>, taken: seq<T>, overruns: nat)
    requires Mirrors(h, items, taken, overruns)
    ensures items == [] ==> Mirrors(Step(capacity, h, Pop), items, taken, overruns)
    ensures items != [] ==> Mirrors(Step(capacity, h, Pop), items[1..], taken + [items[0]], overruns)
  {
    if items != [] {
      OneExit(h.exits, Taken(h.items[0]));
    }
  }
}
