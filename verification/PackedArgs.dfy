/**
  Type-erased formatting arguments: up to 14 argument types packed into the
  4-bit fields of one 64-bit word, more of them in a terminated array with the
  negated count in the same word.
 */
module PackedArgs {
  import opened Arithmetic
  import opened Bits
  import Decimal

  const MAX_PACKED_ARGS: nat := 15
  const NONE_TYPE: nat := 0
  const UINT: int := 0x1_0000_0000

  /** What an argument can be; the absence of an argument is a type of its own in the packed word. */
  datatype Kind =
    | NamedArg | Int | UInt | LongLong | ULongLong | Bool | Char
    | Double | LongDouble | CString | String | Pointer | Custom

  /** The enumeration's numbers: none_type is 0. */
  function Code(kind: Kind): (code: nat)
    ensures 1 <= code <= 13
  {
    match kind
    case NamedArg => 1
    case Int => 2
    case UInt => 3
    case LongLong => 4
    case ULongLong => 5
    case Bool => 6
    case Char => 7
    case Double => 8
    case LongDouble => 9
    case CString => 10
    case String => 11
    case Pointer => 12
    case Custom => 13
  }

  const KINDS: seq<Kind> :=
    [NamedArg, Int, UInt, LongLong, ULongLong, Bool, Char, Double, LongDouble, CString, String, Pointer, Custom]

  /** Code is the place in the enumeration, so a code read back names one kind. */
  lemma CodesAreOrdered(kind: Kind, k: nat)
    ensures |KINDS| == 13 && KINDS[Code(kind) - 1] == kind
    ensures k < 13 ==> Code(KINDS[k]) == k + 1
  {
  }

  /** static_cast<type> of a field that is not none */
  function KindOf(code: nat): (kind: Kind)
    requires 1 <= code <= 13
    ensures Code(kind) == code
  {
    KINDS[code - 1]
  }

  datatype Arg<+V> = Arg(kind: Kind, value: V)

  /** `basic_format_arg`: none_type carries no value. */
  datatype Slot<+V> = Empty | Filled(arg: Arg<V>)

  /** The anonymous union of `basic_format_args`. */
  datatype Data<+V> = Values(values: seq<V>) | Slots(slots: seq<Slot<V>>)

  datatype FormatArgs<+V> = FormatArgs(types: nat, data: Data<V>)

  function Pow16(k: nat): (p: nat)
    ensures p > 0
  {
    if k == 0 then 1 else 16 * Pow16(k - 1)
  }

  // ----- building -----

  /** type | (get_types<rest> << 4) */
  function GetTypes<V>(args: seq<Arg<V>>): nat {
    if args == [] then 0 else BitOr(Code(args[0].kind), ShiftLeft(GetTypes(args[1..]), 4))
  }

  function ValuesOf<V>(args: seq<Arg<V>>): seq<V> {
    if args == [] then [] else [args[0].value] + ValuesOf(args[1..])
  }

  function SlotsOf<V>(args: seq<Arg<V>>): seq<Slot<V>> {
    if args == [] then [Empty] else [Filled(args[0])] + SlotsOf(args[1..])
  }

  /** `format_arg_store`, viewed through `basic_format_args`. */
  function MakeArgs<V>(args: seq<Arg<V>>): FormatArgs<V> {
    if |args| < MAX_PACKED_ARGS then FormatArgs(GetTypes(args) % WORD, Values(ValuesOf(args)))
    else FormatArgs((-|args|) % WORD, Slots(SlotsOf(args)))
  }

  // ----- reading -----

  /** static_cast<long long>(types_) */
  function Signed(types: int): int {
    if types >= WORD / 2 then types - WORD else types
  }

  /** (types_ & (0xf << 4 * index)) >> 4 * index */
  function Type(types: nat, index: nat): nat
    requires index < 16
  {
    var shift := index * 4;
    ShiftRight(BitAnd(types, ShiftLeft(0xf, shift)), shift)
  }

  function Lookup<V>(args: seq<Arg<V>>, index: nat): Slot<V> {
    if index < |args| then Filled(args[index]) else Empty
  }

  lemma {:induction false} SlotAt<V>(args: seq<Arg<V>>, index: nat)
    requires index <= |args|
    ensures |SlotsOf(args)| == |args| + 1 && SlotsOf(args)[index] == Lookup(args, index)
  {
    if args != [] {
      SlotAt(args[1..], if index > 0 then index - 1 else 0);
    }
  }

  lemma {:induction false} ValueAt<V>(args: seq<Arg<V>>, index: nat)
    requires index < |args|
    ensures |ValuesOf(args)| == |args| && ValuesOf(args)[index] == args[index].value
  {
    if |args| > 1 {
      ValueAt(args[1..], if index > 0 then index - 1 else 0);
    }
  }

  lemma {:induction false} Pow16Monotonic(j: nat, k: nat)
    requires j <= k
    ensures Pow16(j) <= Pow16(k)
    decreases k
  {
    if j < k {
      Pow16Monotonic(j, k - 1);
    }
  }

  lemma Pow16Word()
    ensures Pow16(14) == 0x100_0000_0000_0000 && Pow16(15) == 0x1000_0000_0000_0000
  {
    assert Pow16(7) == 0x1000_0000;
    assert Pow16(14) == 0x100_0000_0000_0000;
  }

  lemma {:induction false} Pow16IsPow2(k: nat)
    ensures Pow16(k) == Decimal.Pow2(4 * k)
  {
    if k > 0 {
      Pow16IsPow2(k - 1);
      assert Decimal.Pow2(4 * k) == 2 * Decimal.Pow2(4 * k - 1);
      assert Decimal.Pow2(4 * k - 1) == 2 * Decimal.Pow2(4 * k - 2);
      assert Decimal.Pow2(4 * k - 2) == 2 * Decimal.Pow2(4 * k - 3);
      assert Decimal.Pow2(4 * k - 3) == 2 * Decimal.Pow2(4 * (k - 1));
    }
  }

  /** Packing one more type: as long as the shift loses nothing, the or is a sum. */
  lemma PackOne(kind: nat, rest: nat)
    requires kind < 16 && 16 * rest < WORD
    ensures BitOr(kind, ShiftLeft(rest, 4)) == kind + 16 * rest
  {
    assert Decimal.Pow2(4) == 16;
    assert ShiftLeft(rest, 4) == 16 * rest;
    OrFour(kind, rest);
    hide BitOr;
  }

  /** Shift and mask read a hexadecimal digit. */
  lemma TypeIs(types: nat, index: nat)
    requires index < 16
    ensures Type(types, index) == types / Pow16(index) % 16
  {
    Pow16IsPow2(index);
    FieldIsQuotient(types, 4 * index);
    hide Pow16, Decimal.Pow2, BitAnd, ShiftLeft, ShiftRight;
  }

  /** Fourteen types fill at most 56 bits, so nothing is shifted out. */
  lemma {:induction false} TypesFit<V>(args: seq<Arg<V>>)
    requires |args| < MAX_PACKED_ARGS
    ensures GetTypes(args) < Pow16(|args|) <= Pow16(14)
    ensures args != [] ==> GetTypes(args) == Code(args[0].kind) + 16 * GetTypes(args[1..])
  {
    Pow16Monotonic(|args|, 14);
    if args != [] {
      TypesFit(args[1..]);
      Pow16Word();
      Pow16Monotonic(|args[1..]|, 13);
      assert Pow16(14) == 16 * Pow16(13);
      PackOne(Code(args[0].kind), GetTypes(args[1..]));
      hide BitOr, ShiftLeft;
    }
  }

  lemma FieldOfRest(first: int, rest: int, p: int)
    requires 0 <= first < 16 && 0 <= rest && p > 0
    ensures (first + 16 * rest) / (16 * p) == rest / p
  {
    var q := rest / p;
    assert rest == q * p + rest % p;
    QuotientIs(first + 16 * rest, 16 * p, q);
  }

  lemma TypeStep(first: nat, rest: nat, index: nat)
    requires first < 16 && index < 16
    ensures Type(first + 16 * rest, index) == if index == 0 then first else Type(rest, index - 1)
  {
    var types := first + 16 * rest;
    TypeIs(types, index);
    if index > 0 {
      TypeIs(rest, index - 1);
      assert Pow16(index) == 16 * Pow16(index - 1);
      FieldOfRest(first, rest, Pow16(index - 1));
    } else {
      LowestField(first, rest);
      assert Pow16(0) == 1;
    }
    hide *;
  }

  lemma LowestField(first: int, rest: int)
    requires 0 <= first < 16
    ensures (first + 16 * rest) / 1 % 16 == first
  {
  }

  lemma TypeBeyond(types: nat, index: nat)
    requires types < Pow16(index) && index < 16
    ensures Type(types, index) == NONE_TYPE
  {
    TypeIs(types, index);
    hide Pow16, Type;
    QuotientIs(types, Pow16(index), 0);
  }

  lemma {:induction false} TypeAt<V>(args: seq<Arg<V>>, index: nat)
    requires |args| < MAX_PACKED_ARGS && index < 16
    ensures Type(GetTypes(args), index) == if index < |args| then Code(args[index].kind) else NONE_TYPE
  {
    TypesFit(args);
    if index >= |args| {
      Pow16Monotonic(|args|, index);
      TypeBeyond(GetTypes(args), index);
    } else {
      TypesFit(args[1..]);
      TypeStep(Code(args[0].kind), GetTypes(args[1..]), index);
      hide Type, GetTypes, Pow16;
      if index > 0 {
        TypeAt(args[1..], index - 1);
      }
    }
  }

  lemma PackedLayout<V>(args: seq<Arg<V>>)
    requires |args| < MAX_PACKED_ARGS
    ensures MakeArgs(args).types == GetTypes(args) && Signed(GetTypes(args)) >= 0
  {
    TypesFit(args);
    Pow16Word();
    QuotientIs(GetTypes(args), WORD, 0);
    assert MakeArgs(args).types == GetTypes(args) % WORD;
    hide GetTypes, Pow16, ValuesOf, Type, MakeArgs;
  }

  lemma UnpackedLayout<V>(args: seq<Arg<V>>)
    requires MAX_PACKED_ARGS <= |args| <= WORD / 2
    ensures Signed(MakeArgs(args).types) == -|args|
  {
    QuotientIs(-|args|, WORD, -1);
    hide SlotsOf, GetTypes;
  }

  /** The sign of the word tells the two layouts apart. */
  lemma SignTellsLayout<V>(args: seq<Arg<V>>)
    requires |args| <= WORD / 2
    ensures |args| < 15 <==> Signed(MakeArgs(args).types) >= 0
    ensures |args| < MAX_PACKED_ARGS ==> MakeArgs(args).types == GetTypes(args)
    ensures |args| >= MAX_PACKED_ARGS ==> Signed(MakeArgs(args).types) == -|args|
  {
    if |args| < MAX_PACKED_ARGS {
      PackedLayout(args);
    } else {
      UnpackedLayout(args);
    }
    hide *;
  }

  /** `do_get`: never reads the wrong half of the union, nor outside it, and finds every argument. */
  method DoGet<V>(fa: FormatArgs<V>, index: nat, ghost args: seq<Arg<V>>) returns (r: Slot<V>)
    requires |args| <= WORD / 2 && fa == MakeArgs(args)
    ensures r == Lookup(args, index)
  {
    SignTellsLayout(args);
    if Signed(fa.types) < 0 {
      var numArgs := -Signed(fa.types);
      if index < numArgs {
        SlotAt(args, index);
        return fa.data.slots[index];
      }
      return Empty;
    }
    if index > MAX_PACKED_ARGS {
      return Empty;
    }
    TypeAt(args, index);
    var kind := Type(fa.types, index);
    if kind == NONE_TYPE {
      return Empty;
    }
    ValueAt(args, index);
    CodesAreOrdered(args[index].kind, 0);
    r := Filled(Arg(KindOf(kind), fa.data.values[index]));
  }

  /** static_cast<unsigned> of the number of arguments, or of the limit for packed ones */
  function MaxSize<V>(fa: FormatArgs<V>): nat {
    (if Signed(fa.types) < 0 then -Signed(fa.types) else MAX_PACKED_ARGS) % UINT
  }

  lemma MaxSizeIs<V>(args: seq<Arg<V>>)
    requires |args| < UINT
    ensures MaxSize(MakeArgs(args)) == if |args| < MAX_PACKED_ARGS then MAX_PACKED_ARGS else |args|
  {
    SignTellsLayout(args);
    hide MakeArgs, Signed, GetTypes;
  }

  // ----- the map of named arguments -----

  /** The test of `arg_map::init`: field 14 of a negated count is empty exactly for these counts. */
  lemma FieldFourteen(n: int)
    requires 0 < n <= WORD / 2
    ensures Type((-n) % WORD, 14) == NONE_TYPE <==> (n - 1) / 0x100_0000_0000_0000 % 16 == 15
  {
    Pow16Word();
    QuotientIs(-n, WORD, -1);
    TypeIs(WORD - n, 14);
    hide Type, Pow16;
    var m := n - 1;
    var q := m / 0x100_0000_0000_0000;
    assert (WORD - n) / 0x100_0000_0000_0000 == 255 - q;
  }

  lemma InitTest<V>(args: seq<Arg<V>>)
    requires |args| <= 15 * 0x100_0000_0000_0000
    ensures Type(MakeArgs(args).types, 14) == NONE_TYPE <==> |args| < MAX_PACKED_ARGS
  {
    SignTellsLayout(args);
    if |args| < MAX_PACKED_ARGS {
      TypeAt(args, 14);
    } else {
      FieldFourteen(|args|);
    }
  }

  /** Values of the named arguments, in order. */
  function NamedValues<V>(args: seq<Arg<V>>): seq<V> {
    if args == [] then []
    else NamedValues(args[..|args| - 1]) + NamedValue(args[|args| - 1])
  }

  function NamedValue<V>(arg: Arg<V>): seq<V> {
    if arg.kind.NamedArg? then [arg.value] else []
  }

  lemma {:induction false} FewNamedValues<V>(args: seq<Arg<V>>)
    ensures |NamedValues(args)| <= |args|
  {
    if args != [] {
      FewNamedValues(args[..|args| - 1]);
    }
  }

  function CountNamed<V>(args: seq<Arg<V>>): nat {
    if args == [] then 0 else CountNamed(args[..|args| - 1]) + (if args[|args| - 1].kind.NamedArg? then 1 else 0)
  }

  /** The named arguments by place: each stands behind as many values as there are named arguments before it. */
  lemma {:induction false} NamedAt<V>(args: seq<Arg<V>>, i: nat)
    ensures |NamedValues(args)| == CountNamed(args)
    ensures i < |args| && args[i].kind == NamedArg ==>
      CountNamed(args[..i]) < |NamedValues(args)| && NamedValues(args)[CountNamed(args[..i])] == args[i].value
  {
    if args != [] {
      var front := args[..|args| - 1];
      NamedAt(front, i);
      if i < |front| {
        assert front[..i] == args[..i];
      } else if i == |front| {
        assert args[..i] == front;
      }
    }
  }

  lemma OneMoreNamed<V>(args: seq<Arg<V>>, i: nat)
    requires i < |args|
    ensures NamedValues(args[..i + 1]) == NamedValues(args[..i]) + NamedValue(args[i])
  {
    assert args[..i + 1][..i] == args[..i];
  }

  /** The place that the k-th turn of a loop over `unsigned i` looks at. */
  function UnsignedIndex(k: nat): nat {
    k % UINT
  }

  /** The loop over the terminated array stops exactly if its terminator has an unsigned index. */
  lemma InitStopsExactly<V>(args: seq<Arg<V>>)
    ensures (exists k: nat :: Lookup(args, UnsignedIndex(k)).Empty?) <==> |args| < UINT
  {
    if |args| < UINT {
      assert UnsignedIndex(|args|) == |args|;
      assert Lookup(args, UnsignedIndex(|args|)).Empty?;
    }
  }

  /**
    `arg_map::init` for fewer than 2^32 arguments: both loops over the unsigned
    index stop at the end of the arguments, stay inside their array, and collect
    the named arguments within the allocated entries.
   */
  method InitMap<V>(fa: FormatArgs<V>, ghost args: seq<Arg<V>>) returns (entries: seq<V>)
    requires |args| < UINT && fa == MakeArgs(args)
    ensures entries == NamedValues(args) && |entries| <= MaxSize(fa)
  {
    hide Type, NamedValues, GetTypes, MaxSize, MakeArgs, Signed;
    InitTest(args);
    MaxSizeIs(args);
    FewNamedValues(args);
    var useValues := Type(fa.types, MAX_PACKED_ARGS - 1) == NONE_TYPE;
    if useValues {
      entries := CollectValues(fa, args);
      return;
    }
    entries := CollectSlots(fa, args);
  }

  lemma NextUnsigned(i: nat)
    requires i < UINT
    ensures i + 1 < UINT ==> (i + 1) % UINT == i + 1
  {
  }

  /** What one turn of the loop over packed arguments sees. */
  lemma PackedTurn<V>(fa: FormatArgs<V>, args: seq<Arg<V>>, i: nat)
    requires i <= |args| < MAX_PACKED_ARGS && fa == MakeArgs(args)
    ensures Type(fa.types, i) == if i < |args| then Code(args[i].kind) else NONE_TYPE
    ensures i < |args| ==> fa.data.Values? && i < |fa.data.values| && fa.data.values[i] == args[i].value
    ensures i < |args| ==> NamedValues(args[..i + 1]) == NamedValues(args[..i]) + NamedValue(args[i])
  {
    SignTellsLayout(args);
    TypeAt(args, i);
    if i < |args| {
      OneMoreNamed(args, i);
      ValueAt(args, i);
    }
    hide Type, GetTypes, NamedValues, ValuesOf, Signed;
  }

  method CollectValues<V>(fa: FormatArgs<V>, ghost args: seq<Arg<V>>) returns (entries: seq<V>)
    requires |args| < MAX_PACKED_ARGS && fa == MakeArgs(args)
    ensures entries == NamedValues(args)
  {
    assert args[..|args|] == args && NamedValues(args[..0]) == [];
    hide Type, GetTypes, NamedValues, MakeArgs, ValuesOf, SlotsOf;
    entries := [];
    var i := 0;
    while true
      invariant i <= |args| && entries == NamedValues(args[..i])
      decreases |args| - i
    {
      PackedTurn(fa, args, i);
      NextUnsigned(i);
      var kind := Type(fa.types, i);
      if kind == NONE_TYPE {
        return;
      }
      if kind == Code(NamedArg) {
        entries := entries + [fa.data.values[i]];
      }
      i := (i + 1) % UINT;
    }
  }

  method CollectSlots<V>(fa: FormatArgs<V>, ghost args: seq<Arg<V>>) returns (entries: seq<V>)
    requires MAX_PACKED_ARGS <= |args| < UINT && fa == MakeArgs(args)
    ensures entries == NamedValues(args)
  {
    assert args[..|args|] == args && NamedValues(args[..0]) == [];
    hide NamedValues, SlotsOf, GetTypes, ValuesOf;
    entries := [];
    var i := 0;
    while true
      invariant i <= |args| && entries == NamedValues(args[..i])
      decreases |args| - i
    {
      SlotAt(args, i);
      NextUnsigned(i);
      var slot := fa.data.slots[i];
      if slot.Empty? {
        return;
      }
      OneMoreNamed(args, i);
      if slot.arg.kind.NamedArg? {
        entries := entries + [slot.arg.value];
      }
      i := (i + 1) % UINT;
    }
  }
}
