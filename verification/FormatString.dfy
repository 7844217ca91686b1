/**
  `parse_format_string` with the argument-indexing rules of the parse context.
  A format string denotes a list of items; parsing is the inverse of printing
  items, followed by the assignment of argument indices.
 */
module FormatString {
  import opened ParseInt
  import opened FormatSpecs

  /** One character of output text, or one replacement field. */
  datatype Item = Lit(c: char) | Field(id: ArgId, spec: Option<Spec>)

  datatype Outcome = Accepted(items: seq<Item>) | Rejected

  function Prepend(items: seq<Item>, r: Outcome): Outcome {
    if r.Accepted? then Accepted(items + r.items) else Rejected
  }

  // ----- argument indexing: `next_arg_id` and `check_arg_id` -----

  datatype Indexed<+T> = Fine(value: T, next: int) | Mixed

  function AssignId(id: ArgId, next: int): Indexed<ArgId> {
    match id
    case Auto => if next >= 0 then Fine(Index(next), next + 1) else Mixed
    case Index(n) => if next > 0 then Mixed else Fine(id, -1)
    case Name(_) => Fine(id, next)
  }

  function AssignCount(count: Count, next: int): Indexed<Count> {
    if count.Dynamic? then
      match AssignId(count.id, next)
      case Mixed => Mixed
      case Fine(id, next') => Fine(Dynamic(id), next')
    else Fine(count, next)
  }

  function AssignSpec(spec: Spec, next: int): Indexed<Spec> {
    match AssignCount(spec.width, next)
    case Mixed => Mixed
    case Fine(width, next') =>
      match AssignCount(spec.precision, next')
      case Mixed => Mixed
      case Fine(precision, next'') => Fine(spec.(width := width, precision := precision), next'')
  }

  /** The field's own id comes first, then its dynamic width, then its dynamic precision. */
  function AssignItem(item: Item, next: int): Indexed<Item> {
    match item
    case Lit(_) => Fine(item, next)
    case Field(id, spec) =>
      match AssignId(id, next)
      case Mixed => Mixed
      case Fine(id', next') =>
        if spec.None? then Fine(Field(id', None), next')
        else
          match AssignSpec(spec.value, next')
          case Mixed => Mixed
          case Fine(spec', next'') => Fine(Field(id', Some(spec')), next'')
  }

  function Assign(items: seq<Item>, next: int): Outcome {
    if items == [] then Accepted([])
    else
      match AssignItem(items[0], next)
      case Mixed => Rejected
      case Fine(item, next') => Prepend([item], Assign(items[1..], next'))
  }

  // ----- parsing -----

  /** A replacement field after its opening brace. */
  function ParseField(text: string): Parsed<Item> {
    match ParseArgId(text)
    case Error(message) => Error(message)
    case Ok(id, rest) =>
      if Peek(rest) == '}' then Ok(Field(id, None), rest[1..])
      else if Peek(rest) == ':' then
        match ParseSpecs(rest[1..])
        case Error(message) => Error(message)
        case Ok(spec, rest') =>
          if Peek(rest') == '}' then Ok(Field(id, Some(spec)), rest'[1..]) else Error("missing '}' in format string")
      else Error("missing '}' in format string")
  }

  lemma FieldShrinks(text: string)
    ensures ParseField(text).Ok? ==> |ParseField(text).rest| < |text|
  {
    ParsedIdIsValid(text);
    if ParseArgId(text).Ok? {
      var rest := ParseArgId(text).rest;
      if Peek(rest) == ':' && ParseSpecs(rest[1..]).Ok? {
        ParsedIsWellFormed(rest[1..]);
      }
    }
  }

  /** An accepted field ends with the closing brace directly before what follows it. */
  lemma FieldEnds(text: string)
    requires ParseField(text).Ok?
    ensures var end := |text| - |ParseField(text).rest|;
      0 < end && text[end - 1] == '}' && text[end..] == ParseField(text).rest
  {
    ParsedIdIsValid(text);
    FieldCases(text);
    var rest := ParseArgId(text).rest;
    assert SuffixOf(rest, text);
    if Peek(rest) == ':' {
      ParsedIsWellFormed(rest[1..]);
      TailIsSuffix(rest, text);
      SuffixChain(ParseSpecs(rest[1..]).rest, rest[1..], text);
      BraceBefore(text, ParseSpecs(rest[1..]).rest);
    } else {
      BraceBefore(text, rest);
    }
    hide ParseField, ParseArgId, ParseSpecs, SuffixOf;
  }

  /** Where an accepted field can end: behind its id, or behind its specification. */
  lemma FieldCases(text: string)
    requires ParseField(text).Ok?
    ensures ParseArgId(text).Ok?
    ensures var rest := ParseArgId(text).rest;
      || (Peek(rest) == '}' && ParseField(text).rest == rest[1..])
      || (Peek(rest) == ':' && ParseSpecs(rest[1..]).Ok? && Peek(ParseSpecs(rest[1..]).rest) == '}'
          && ParseField(text).rest == ParseSpecs(rest[1..]).rest[1..])
  {
    hide ParseArgId, ParseSpecs;
  }

  lemma TailIsSuffix(rest: string, text: string)
    requires rest != [] && SuffixOf(rest, text)
    ensures SuffixOf(rest[1..], text)
  {
  }

  lemma BraceBefore(text: string, rest: string)
    requires SuffixOf(rest, text) && Peek(rest) == '}'
    ensures var end := |text| - |rest[1..]|; 0 < end && text[end - 1] == '}' && text[end..] == rest[1..]
  {
    assert rest[0] == text[|text| - |rest|];
  }

  function IsBrace(c: char): bool {
    c == '{' || c == '}'
  }

  /** What a format string means when automatic indexing stands at `next`. */
  function Parse(text: string, next: int): Outcome
    decreases |text|
  {
    if Peek(text) == NUL then Accepted([])
    else if !IsBrace(text[0]) then Prepend([Lit(text[0])], Parse(text[1..], next))
    else if Peek(text[1..]) == text[0] then Prepend([Lit(text[0])], Parse(text[2..], next))
    else if text[0] == '}' then Rejected
    else
      FieldShrinks(text[1..]);
      match ParseField(text[1..])
      case Error(_) => Rejected
      case Ok(field, rest) =>
        match AssignItem(field, next)
        case Mixed => Rejected
        case Fine(item, next') => Prepend([item], Parse(rest, next'))
  }

  /** The outcome of a text that follows a single opening brace. */
  ghost function AfterBrace(text: string, next: int): Outcome {
    match ParseField(text)
    case Error(_) => Rejected
    case Ok(field, rest) =>
      match AssignItem(field, next)
      case Mixed => Rejected
      case Fine(item, next') => Prepend([item], Parse(rest, next'))
  }

  /** What the first character of the remaining text does: only braces are special, a doubled one stands for itself. */
  lemma FirstOfText(text: string, next: int)
    ensures Peek(text) == '\0' ==> Parse(text, next) == Accepted([])
    ensures Peek(text) != '\0' && Peek(text) != '{' && Peek(text) != '}' ==>
      Parse(text, next) == Prepend([Lit(text[0])], Parse(text[1..], next))
    ensures Peek(text) == '{' && Peek(text[1..]) == '{' ==>
      Parse(text, next) == Prepend([Lit('{')], Parse(text[2..], next))
    ensures Peek(text) == '}' && Peek(text[1..]) == '}' ==>
      Parse(text, next) == Prepend([Lit('}')], Parse(text[2..], next))
    ensures Peek(text) == '}' && Peek(text[1..]) != '}' ==> Parse(text, next) == Rejected
  {
    hide ParseField, AssignItem;
  }

  /** Automatic ids are given to a field first, then to its width, then to its precision. */
  lemma IdsInOrder(spec: Spec, next: int)
    requires next >= 0 && spec.width == Dynamic(Auto) && spec.precision == Dynamic(Auto)
    ensures AssignItem(Field(Auto, Some(spec)), next) ==
      Fine(Field(Index(next),
                 Some(spec.(width := Dynamic(Index(next + 1)), precision := Dynamic(Index(next + 2))))), next + 3)
  {
  }

  /** The items of a format string before indices are assigned. */
  function Items(text: string): Outcome
    decreases |text|
  {
    if Peek(text) == NUL then Accepted([])
    else if !IsBrace(text[0]) then Prepend([Lit(text[0])], Items(text[1..]))
    else if Peek(text[1..]) == text[0] then Prepend([Lit(text[0])], Items(text[2..]))
    else if text[0] == '}' then Rejected
    else
      FieldShrinks(text[1..]);
      match ParseField(text[1..])
      case Error(_) => Rejected
      case Ok(field, rest) => Prepend([field], Items(rest))
  }

  /** Parsing in one pass is splitting into items, then assigning indices. */
  lemma {:induction false} ParseIsAssignedItems(text: string, next: int)
    ensures Parse(text, next) == if Items(text).Accepted? then Assign(Items(text).items, next) else Rejected
    decreases |text|
  {
    hide ParseField, AssignItem;
    if Peek(text) == NUL {
    } else if !IsBrace(text[0]) {
      ParseIsAssignedItems(text[1..], next);
      AssignFirst(Lit(text[0]), Items(text[1..]), next);
      LitIsFine(text[0], next);
    } else if Peek(text[1..]) == text[0] {
      ParseIsAssignedItems(text[2..], next);
      AssignFirst(Lit(text[0]), Items(text[2..]), next);
      LitIsFine(text[0], next);
    } else if text[0] == '{' {
      FieldShrinks(text[1..]);
      match ParseField(text[1..]) {
        case Error(_) =>
        case Ok(field, rest) =>
          AssignFirst(field, Items(rest), next);
          if AssignItem(field, next).Fine? {
            ParseIsAssignedItems(rest, AssignItem(field, next).next);
          }
      }
    }
  }

  lemma LitIsFine(c: char, next: int)
    ensures AssignItem(Lit(c), next) == Fine(Lit(c), next)
  {
  }

  lemma AssignFirst(item: Item, others: Outcome, next: int)
    ensures others.Accepted? ==> Prepend([item], others).items[1..] == others.items
    ensures others.Accepted? ==> (Assign(Prepend([item], others).items, next) ==
      match AssignItem(item, next)
      case Mixed => Rejected
      case Fine(item', next') => Prepend([item'], Assign(others.items, next')))
  {
    if others.Accepted? {
      assert ([item] + others.items)[1..] == others.items;
    }
  }

  // ----- printing -----

  function PrintItem(item: Item): string {
    match item
    case Lit(c) => if IsBrace(c) then [c, c] else [c]
    case Field(id, None) => "{" + PrintId(id) + "}"
    case Field(id, Some(spec)) => "{" + PrintId(id) + ":" + Print(spec) + "}"
  }

  function PrintItems(items: seq<Item>): string {
    if items == [] then "" else PrintItem(items[0]) + PrintItems(items[1..])
  }

  ghost predicate ValidItem(item: Item) {
    match item
    case Lit(c) => c != NUL
    case Field(id, spec) => ValidId(id) && (spec.Some? ==> WellFormed(spec.value))
  }

  ghost predicate ValidItems(items: seq<Item>) {
    forall i :: 0 <= i < |items| ==> ValidItem(items[i])
  }

  lemma FieldRoundTrip(item: Item, rest: string)
    requires item.Field? && ValidItem(item)
    ensures ParseField(PrintItem(item)[1..] + rest) == Ok(item, rest)
    ensures Peek(PrintItem(item)[1..] + rest) != '{'
  {
    var id := PrintId(item.id);
    match item.spec {
      case None =>
        IdRoundTrip(item.id, "}" + rest);
        PlainField(id, item.id, rest);
      case Some(spec) =>
        IdRoundTrip(item.id, ":" + (Print(spec) + ("}" + rest)));
        PrintThenParse(spec, "}" + rest);
        FieldWithSpec(id, item.id, Print(spec), spec, rest);
    }
    IdStart(item.id);
  }

  lemma IdStart(id: ArgId)
    requires ValidId(id)
    ensures PrintId(id) == "" || (PrintId(id)[0] != '{' && PrintId(id)[0] != '}')
  {
    if id.Index? {
      Decimal.ValueOfDigits(id.n);
    }
  }

  lemma PlainField(text: string, id: ArgId, rest: string)
    requires ParseArgId(text + ("}" + rest)) == Ok(id, "}" + rest)
    ensures ParseField(("{" + text + "}")[1..] + rest) == Ok(Field(id, None), rest)
  {
    hide ParseArgId, ParseSpecs;
    assert ("{" + text + "}")[1..] + rest == text + ("}" + rest);
    assert ("}" + rest)[1..] == rest;
  }

  lemma FieldWithSpec(text: string, id: ArgId, specText: string, spec: Spec, rest: string)
    requires ParseArgId(text + (":" + (specText + ("}" + rest)))) == Ok(id, ":" + (specText + ("}" + rest)))
    requires ParseSpecs(specText + ("}" + rest)) == Ok(spec, "}" + rest)
    ensures ParseField(("{" + text + ":" + specText + "}")[1..] + rest) == Ok(Field(id, Some(spec)), rest)
  {
    hide ParseArgId, ParseSpecs;
    var tail := ":" + (specText + ("}" + rest));
    assert ("{" + text + ":" + specText + "}")[1..] + rest == text + tail;
    assert tail[1..] == specText + ("}" + rest);
    assert ("}" + rest)[1..] == rest;
  }

  lemma OneItem(item: Item, rest: string)
    requires ValidItem(item)
    ensures Items(PrintItem(item) + rest) == Prepend([item], Items(rest))
  {
    var text := PrintItem(item) + rest;
    match item {
      case Lit(c) =>
        if IsBrace(c) {
          assert text[1..] == [c] + rest && text[2..] == rest;
        } else {
          assert text[1..] == rest;
        }
      case Field(id, spec) =>
        FieldRoundTrip(item, rest);
        FieldText(item, rest);
        hide ParseField, PrintItem;
        assert Peek(text[1..]) != '{';
    }
  }

  lemma FieldText(item: Item, rest: string)
    requires item.Field?
    ensures PrintItem(item)[0] == '{' && (PrintItem(item) + rest)[1..] == PrintItem(item)[1..] + rest
  {
  }

  /** Splitting the printed form of any valid items gives the items back. */
  lemma {:induction false} ItemsOfPrinted(items: seq<Item>)
    requires ValidItems(items)
    ensures Items(PrintItems(items)) == Accepted(items)
  {
    if items != [] {
      assert ValidItem(items[0]) && ValidItems(items[1..]);
      assert PrintItems(items) == PrintItem(items[0]) + PrintItems(items[1..]);
      assert [items[0]] + items[1..] == items;
      assert Prepend([items[0]], Accepted(items[1..])) == Accepted(items);
      hide *;
      ItemsOfPrinted(items[1..]);
      OneItem(items[0], PrintItems(items[1..]));
    }
  }

  /** Parsing a printed format string assigns indices to its items and loses nothing. */
  lemma ParsePrinted(items: seq<Item>, next: int)
    requires ValidItems(items)
    ensures Parse(PrintItems(items), next) == Assign(items, next)
  {
    ItemsOfPrinted(items);
    ParseIsAssignedItems(PrintItems(items), next);
  }

  lemma ParsedFieldIsValid(text: string)
    requires ParseField(text).Ok?
    ensures ParseField(text).value.Field? && ValidItem(ParseField(text).value)
  {
    ParsedIdIsValid(text);
    var rest := ParseArgId(text).rest;
    if Peek(rest) == ':' {
      ParsedIsWellFormed(rest[1..]);
    }
  }

  /** Whatever is accepted splits into valid items, so printing them gives a normal form of the format string. */
  lemma {:induction false} ParsedItemsAreValid(text: string)
    requires Items(text).Accepted?
    ensures ValidItems(Items(text).items)
    decreases |text|
  {
    hide ParseField, ValidItem;
    if Peek(text) == NUL {
    } else if !IsBrace(text[0]) {
      ParsedItemsAreValid(text[1..]);
      LitIsValid(text[0]);
    } else if Peek(text[1..]) == text[0] {
      ParsedItemsAreValid(text[2..]);
      LitIsValid(text[0]);
    } else if text[0] == '{' {
      FieldShrinks(text[1..]);
      ParsedItemsAreValid(ParseField(text[1..]).rest);
      ParsedFieldIsValid(text[1..]);
    }
  }

  lemma LitIsValid(c: char)
    requires c != NUL
    ensures ValidItem(Lit(c))
  {
  }

  lemma NormalFormatString(text: string, next: int)
    requires Items(text).Accepted?
    ensures Parse(PrintItems(Items(text).items), next) == Parse(text, next)
  {
    hide *;
    ParsedItemsAreValid(text);
    ParsePrinted(Items(text).items, next);
    ParseIsAssignedItems(text, next);
  }

  // ----- escaped text -----

  function Escape(text: string): string {
    if text == "" then ""
    else (if IsBrace(text[0]) then [text[0], text[0]] else [text[0]]) + Escape(text[1..])
  }

  function Lits(text: string): seq<Item> {
    seq(|text|, i requires 0 <= i < |text| => Lit(text[i]))
  }

  /** The part of a text before its first NUL. */
  function BeforeNul(text: string): string {
    if Peek(text) == NUL then "" else [text[0]] + BeforeNul(text[1..])
  }

  lemma {:induction false} NulFree(text: string)
    ensures BeforeNul(text) == text <==> NUL !in text
  {
    if Peek(text) != NUL {
      NulFree(text[1..]);
      assert text == [text[0]] + text[1..];
    }
  }

  /** Doubling braces makes any text stand for itself, up to its first NUL. */
  lemma {:induction false} EscapedText(text: string, next: int)
    ensures Parse(Escape(text), next) == Accepted(Lits(BeforeNul(text)))
  {
    if text == "" {
      assert Lits("") == [];
    } else {
      EscapedText(text[1..], next);
      EscapedChar(text[0], Escape(text[1..]), next);
      assert Lits([text[0]] + BeforeNul(text[1..])) == [Lit(text[0])] + Lits(BeforeNul(text[1..]));
      hide Parse;
    }
  }

  lemma EscapedChar(c: char, more: string, next: int)
    ensures var text := (if IsBrace(c) then [c, c] else [c]) + more;
      Parse(text, next) == if c == NUL then Accepted([]) else Prepend([Lit(c)], Parse(more, next))
  {
    hide ParseField, AssignItem;
    var text := (if IsBrace(c) then [c, c] else [c]) + more;
    if IsBrace(c) {
      assert text[1..] == [c] + more && text[2..] == more;
    } else {
      assert text[1..] == more;
    }
  }

  // ----- which strings mix automatic and manual indexing -----

  function CountIds(count: Count): seq<ArgId> {
    if count.Dynamic? then [count.id] else []
  }

  function ItemIds(item: Item): seq<ArgId> {
    match item
    case Lit(_) => []
    case Field(id, None) => [id]
    case Field(id, Some(spec)) => [id] + CountIds(spec.width) + CountIds(spec.precision)
  }

  /** All argument references, in the order in which the parser meets them. */
  function AllIds(items: seq<Item>): seq<ArgId> {
    if items == [] then [] else ItemIds(items[0]) + AllIds(items[1..])
  }

  function AssignIds(ids: seq<ArgId>, next: int): Indexed<seq<ArgId>> {
    if ids == [] then Fine([], next)
    else
      match AssignId(ids[0], next)
      case Mixed => Mixed
      case Fine(id, next') =>
        match AssignIds(ids[1..], next')
        case Mixed => Mixed
        case Fine(others, next'') => Fine([id] + others, next'')
  }

  lemma {:induction false} AssignIdsJoined(a: seq<ArgId>, b: seq<ArgId>, next: int)
    ensures AssignIds(a + b, next) ==
      match AssignIds(a, next)
      case Mixed => Mixed
      case Fine(a', next') =>
        match AssignIds(b, next')
        case Mixed => Mixed
        case Fine(b', next'') => Fine(a' + b', next'')
  {
    if a == [] {
      assert a + b == b;
      assert AssignIds(b, next).Fine? ==> [] + AssignIds(b, next).value == AssignIds(b, next).value;
    } else {
      assert (a + b)[1..] == a[1..] + b;
      match AssignId(a[0], next) {
        case Mixed =>
        case Fine(id, next') =>
          AssignIdsJoined(a[1..], b, next');
          match AssignIds(a[1..], next') {
            case Mixed =>
            case Fine(a', n1) =>
              match AssignIds(b, n1) {
                case Mixed =>
                case Fine(b', n2) => assert [id] + (a' + b') == ([id] + a') + b';
              }
          }
      }
    }
  }

  lemma SingleId(id: ArgId, next: int)
    ensures AssignIds([id], next) ==
      match AssignId(id, next) case Mixed => Mixed case Fine(id', next') => Fine([id'], next')
  {
    match AssignId(id, next) {
      case Mixed =>
      case Fine(id', next') =>
        assert [id][1..] == [] && AssignIds([], next') == Fine([], next');
        assert [id'] + [] == [id'];
    }
  }

  lemma CountAssigned(count: Count, next: int)
    ensures AssignIds(CountIds(count), next) ==
      match AssignCount(count, next) case Mixed => Mixed case Fine(count', next') => Fine(CountIds(count'), next')
  {
    if count.Dynamic? {
      SingleId(count.id, next);
    }
  }

  lemma ItemAssigned(item: Item, next: int)
    ensures AssignIds(ItemIds(item), next) ==
      match AssignItem(item, next) case Mixed => Mixed case Fine(item', next') => Fine(ItemIds(item'), next')
  {
    match item {
      case Lit(_) =>
      case Field(id, None) => SingleId(id, next);
      case Field(id, Some(spec)) =>
        hide AssignIds, AssignId, AssignCount;
        var a, b, c := [id], CountIds(spec.width), CountIds(spec.precision);
        SingleId(id, next);
        AssignIdsJoined(a + b, c, next);
        AssignIdsJoined(a, b, next);
        if AssignId(id, next).Fine? {
          CountAssigned(spec.width, AssignId(id, next).next);
          if AssignCount(spec.width, AssignId(id, next).next).Fine? {
            CountAssigned(spec.precision, AssignCount(spec.width, AssignId(id, next).next).next);
          }
        }
    }
  }

  /** Index assignment over items is index assignment over their references. */
  lemma {:induction false} AssignedIds(items: seq<Item>, next: int)
    ensures Assign(items, next).Accepted? <==> AssignIds(AllIds(items), next).Fine?
    ensures Assign(items, next).Accepted? ==> AllIds(Assign(items, next).items) == AssignIds(AllIds(items), next).value
  {
    if items != [] {
      hide AssignIds, AssignItem, ItemIds;
      ItemAssigned(items[0], next);
      AssignIdsJoined(ItemIds(items[0]), AllIds(items[1..]), next);
      match AssignItem(items[0], next) {
        case Mixed =>
        case Fine(item, next') =>
          AssignedIds(items[1..], next');
          if Assign(items[1..], next').Accepted? {
            assert ([item] + Assign(items[1..], next').items)[1..] == Assign(items[1..], next').items;
          }
      }
    } else {
      assert AssignIds([], next) == Fine([], next);
    }
  }

  function Autos(ids: seq<ArgId>): nat {
    if ids == [] then 0 else Autos(ids[..|ids| - 1]) + (if ids[|ids| - 1].Auto? then 1 else 0)
  }

  ghost predicate HasAuto(ids: seq<ArgId>) {
    exists i :: 0 <= i < |ids| && ids[i].Auto?
  }

  ghost predicate HasIndex(ids: seq<ArgId>) {
    exists i :: 0 <= i < |ids| && ids[i].Index?
  }

  lemma {:induction false} AutosFromFront(ids: seq<ArgId>)
    requires ids != []
    ensures Autos(ids) == Autos(ids[1..]) + (if ids[0].Auto? then 1 else 0)
  {
    var last := |ids| - 1;
    if last > 0 {
      AutosFromFront(ids[..last]);
      assert ids[..last][1..] == ids[1..][..last - 1];
    }
  }

  /** `numbered` is `ids` with the k-th automatic reference replaced by index k, starting from `next` if positive. */
  ghost predicate Numbered(ids: seq<ArgId>, next: int, numbered: seq<ArgId>) {
    && |numbered| == |ids|
    && forall k :: 0 <= k < |ids| ==>
      numbered[k] == (if ids[k].Auto? then Index(Autos(ids[..k]) + if next > 0 then next else 0) else ids[k])
  }

  /** The state of the parse context decides which kinds of reference are still allowed. */
  lemma {:induction false} IndexingRule(ids: seq<ArgId>, next: int)
    ensures AssignIds(ids, next).Fine? <==>
      (next > 0 ==> !HasIndex(ids)) && (next < 0 ==> !HasAuto(ids)) && !(HasAuto(ids) && HasIndex(ids))
    ensures AssignIds(ids, next).Fine? ==> Numbered(ids, next, AssignIds(ids, next).value)
  {
    if ids != [] {
      var rest := ids[1..];
      assert HasAuto(ids) <==> ids[0].Auto? || HasAuto(rest) by {
        assert forall i :: 1 <= i < |ids| ==> ids[i] == rest[i - 1];
      }
      assert HasIndex(ids) <==> ids[0].Index? || HasIndex(rest) by {
        assert forall i :: 1 <= i < |ids| ==> ids[i] == rest[i - 1];
      }
      match AssignId(ids[0], next) {
        case Mixed =>
        case Fine(id, next') =>
          IndexingRule(rest, next');
          hide Autos;
          if AssignIds(ids, next).Fine? {
            Renumbered(ids, next, id, next');
          }
      }
    }
  }

  lemma Renumbered(ids: seq<ArgId>, next: int, id: ArgId, next': int)
    requires ids != [] && AssignId(ids[0], next) == Fine(id, next')
    requires next < 0 ==> !HasAuto(ids)
    requires HasAuto(ids) ==> !HasIndex(ids)
    requires AssignIds(ids[1..], next').Fine? && Numbered(ids[1..], next', AssignIds(ids[1..], next').value)
    ensures Numbered(ids, next, [id] + AssignIds(ids[1..], next').value)
  {
    forall k | 1 <= k < |ids|
      ensures ids[k].Auto? ==>
        Autos(ids[1..][..k - 1]) + (if next' > 0 then next' else 0) == Autos(ids[..k]) + (if next > 0 then next else 0)
    {
      AutosFromFront(ids[..k]);
      assert ids[..k][1..] == ids[1..][..k - 1];
      if ids[k].Auto? {
        assert HasAuto(ids);
        assert !ids[0].Index?;
      }
    }
  }

  /**
    A format string is accepted exactly when it splits into items that do not
    mix automatic and numeric references; then the k-th automatic reference
    becomes index k (counted from zero) and every other reference stays.
   */
  lemma AcceptedExactly(text: string)
    ensures Parse(text, 0).Accepted? <==>
      Items(text).Accepted? && !(HasAuto(AllIds(Items(text).items)) && HasIndex(AllIds(Items(text).items)))
    ensures Parse(text, 0).Accepted? ==> Numbered(AllIds(Items(text).items), 0, AllIds(Parse(text, 0).items))
  {
    hide Parse, Items, Assign, AssignIds, AllIds;
    ParseIsAssignedItems(text, 0);
    if Items(text).Accepted? {
      AssignedIds(Items(text).items, 0);
      IndexingRule(AllIds(Items(text).items), 0);
    }
  }

  // ----- the code -----

  /** The indexing half of `basic_parse_context`. */
  class ParseContext {
    var nextArgId: int

    constructor ()
      ensures nextArgId == 0
    {
      nextArgId := 0;
    }

    method NextArgId() returns (id: Option<nat>)
      modifies this
      ensures match AssignId(Auto, old(nextArgId))
        case Mixed => id == None && nextArgId == old(nextArgId)
        case Fine(assigned_, next) => id.Some? && Index(id.value) == assigned_ && nextArgId == next
    {
      if nextArgId >= 0 {
        id := Some(nextArgId);
        nextArgId := nextArgId + 1;
      } else {
        id := None;
      }
    }

    method CheckArgId(n: nat) returns (ok: bool)
      modifies this
      ensures match AssignId(Index(n), old(nextArgId))
        case Mixed => !ok && nextArgId == old(nextArgId)
        case Fine(_, next) => ok && nextArgId == next
    {
      if nextArgId > 0 {
        return false;
      }
      nextArgId := -1;
      ok := true;
    }

    /** `on_arg_id`, `on_dynamic_width` and `on_dynamic_precision` resolve their reference this way. */
    method Reference(id: ArgId) returns (r: Option<ArgId>)
      modifies this
      ensures match AssignId(id, old(nextArgId))
        case Mixed => r == None
        case Fine(id', next) => r == Some(id') && nextArgId == next
    {
      match id {
        case Auto =>
          var n := NextArgId();
          r := if n.Some? then Some(Index(n.value)) else None;
        case Index(n) =>
          var ok := CheckArgId(n);
          r := if ok then Some(id) else None;
        case Name(_) =>
          r := Some(id);
      }
    }

    method Counted(count: Count) returns (r: Option<Count>)
      modifies this
      ensures match AssignCount(count, old(nextArgId))
        case Mixed => r == None
        case Fine(count', next) => r == Some(count') && nextArgId == next
    {
      if count.Dynamic? {
        var id := Reference(count.id);
        r := if id.Some? then Some(Dynamic(id.value)) else None;
      } else {
        r := Some(count);
      }
    }

    /** The references of one field, in the order of the callbacks. */
    method Resolve(field: Item) returns (r: Option<Item>)
      requires field.Field?
      modifies this
      ensures match AssignItem(field, old(nextArgId))
        case Mixed => r == None
        case Fine(item, next) => r == Some(item) && nextArgId == next
    {
      hide AssignId, AssignCount;
      var id := Reference(field.id);
      if id.None? {
        return None;
      }
      if field.spec.None? {
        return Some(Field(id.value, None));
      }
      var width := Counted(field.spec.value.width);
      if width.None? {
        return None;
      }
      var precision := Counted(field.spec.value.precision);
      if precision.None? {
        return None;
      }
      r := Some(Field(id.value, Some(field.spec.value.(width := width.value, precision := precision.value))));
    }
  }

  lemma FieldIsSuffix(text: string)
    ensures ParseField(text).Ok? ==>
      |ParseField(text).rest| < |text| && text[|text| - |ParseField(text).rest|..] == ParseField(text).rest
  {
    FieldShrinks(text);
    ParsedIdIsValid(text);
    if ParseField(text).Ok? && Peek(ParseArgId(text).rest) == ':' {
      ParsedIsWellFormed(ParseArgId(text).rest[1..]);
    }
    hide ParseArgId, ParseSpecs;
  }

  /** A replacement field, with its specification as the handler was told it. */
  method ScanField(text: string) returns (r: Parsed<Item>)
    ensures r == ParseField(text)
  {
    hide ParseArgId, ParseSpecs, Callbacks, ToldAll;
    var id := ParseId(text);
    if id.Error? {
      return Error(id.message);
    }
    if Peek(id.rest) == '}' {
      return Ok(Field(id.value, None), id.rest[1..]);
    }
    if Peek(id.rest) != ':' {
      return Error("missing '}' in format string");
    }
    var calls, error, it := ParseFormatSpecs(id.rest[1..]);
    if error.Some? {
      return Error(error.value);
    }
    CallbacksDetermineSpec(ParseSpecs(id.rest[1..]).value);
    r := if Peek(it) == '}' then Ok(Field(id.value, Some(ToldAll(EMPTY, calls))), it[1..])
         else Error("missing '}' in format string");
  }

  lemma PlainChar(out: seq<Item>, s: string, start: nat, it: nat, next: int)
    requires start <= it < |s| && s[it] != NUL && !IsBrace(s[it])
    ensures Prepend(out + Lits(s[start..it]), Parse(s[it..], next))
         == Prepend(out + Lits(s[start..it + 1]), Parse(s[it + 1..], next))
  {
    assert s[it..][1..] == s[it + 1..];
    LiteralStep(out, s, start, it, Parse(s[it + 1..], next));
  }

  lemma DoubledBrace(out: seq<Item>, s: string, start: nat, it: nat, next: int)
    requires start <= it < |s| && IsBrace(s[it]) && Peek(s[it + 1..]) == s[it]
    ensures it + 2 <= |s|
    ensures Prepend(out + Lits(s[start..it]), Parse(s[it..], next))
         == Prepend(out + Lits(s[start..it + 1]), Parse(s[it + 2..], next))
  {
    assert s[it..][1..] == s[it + 1..] && s[it..][2..] == s[it + 2..];
    LiteralStep(out, s, start, it, Parse(s[it + 2..], next));
  }

  lemma LiteralStep(out: seq<Item>, s: string, start: nat, it: nat, r: Outcome)
    requires start <= it < |s|
    ensures Prepend(out + Lits(s[start..it]), Prepend([Lit(s[it])], r)) == Prepend(out + Lits(s[start..it + 1]), r)
  {
    Chunk(s, start, it);
    PrependTwice(out + Lits(s[start..it]), [Lit(s[it])], r);
    assert out + Lits(s[start..it]) + [Lit(s[it])] == out + (Lits(s[start..it]) + [Lit(s[it])]);
  }

  lemma BraceCases(s: string, it: nat, next: int)
    requires it < |s| && IsBrace(s[it]) && Peek(s[it + 1..]) != s[it]
    ensures s[it] == '}' ==> Parse(s[it..], next) == Rejected
    ensures s[it] == '{' ==> Parse(s[it..], next) == AfterBrace(s[it + 1..], next)
  {
    assert s[it..][1..] == s[it + 1..];
  }

  lemma RestOf(s: string, k: nat, rest: string)
    requires k <= |s| && |rest| <= |s| - k && s[k..][|s| - k - |rest|..] == rest
    ensures s[|s| - |rest|..] == rest
  {
  }

  lemma ParsedFieldIsField(text: string)
    ensures ParseField(text).Ok? ==> ParseField(text).value.Field?
  {
  }

  lemma Chunk(s: string, start: nat, it: nat)
    requires start <= it < |s|
    ensures Lits(s[start..it]) + [Lit(s[it])] == Lits(s[start..it + 1])
  {
  }

  lemma PrependTwice(a: seq<Item>, b: seq<Item>, r: Outcome)
    ensures Prepend(a, Prepend(b, r)) == Prepend(a + b, r)
  {
    if r.Accepted? {
      assert a + (b + r.items) == (a + b) + r.items;
    }
  }

  lemma NoText(out: seq<Item>, s: string, k: nat, r: Outcome)
    requires k <= |s|
    ensures Prepend(out + Lits(s[k..k]), r) == Prepend(out, r)
    ensures Prepend([], r) == r && Prepend(out, Accepted([])) == Accepted(out)
  {
    assert s[k..k] == "" && Lits("") == [] && out + [] == out;
    if r.Accepted? {
      assert [] + r.items == r.items;
    }
  }

  /**
    `parse_format_string`: literal text is handed over in chunks [start, it);
    the pointers stay inside the string and every round shortens what is left.
   */
  method ParseFormatString(s: string) returns (r: Outcome)
    ensures r == Parse(s, 0)
  {
    hide Parse, Prepend, Lits, ParseField, AssignItem;
    var context := new ParseContext();
    var out: seq<Item> := [];
    var start: nat, it: nat := 0, 0;
    assert s[0..] == s;
    NoText([], s, 0, Parse(s, 0));
    while Peek(s[it..]) != NUL
      invariant start <= it <= |s|
      invariant Prepend(out + Lits(s[start..it]), Parse(s[it..], context.nextArgId)) == Parse(s, 0)
      decreases |s| - it
    {
      var ch := s[it];
      if !IsBrace(ch) {
        PlainChar(out, s, start, it, context.nextArgId);
        it := it + 1;
        continue;
      }
      if Peek(s[it + 1..]) == ch {
        DoubledBrace(out, s, start, it, context.nextArgId);
        out := out + Lits(s[start..it + 1]);
        it := it + 2;
        start := it;
        NoText(out, s, it, Parse(s[it..], context.nextArgId));
        continue;
      }
      BraceCases(s, it, context.nextArgId);
      RejectedStays(out + Lits(s[start..it]));
      if ch == '}' {
        return Rejected;
      }
      out := out + Lits(s[start..it]);
      var rest;
      out, rest := TakeField(context, out, s[it + 1..], Parse(s[it..], context.nextArgId));
      if rest.None? {
        return Rejected;
      }
      RestOf(s, it + 1, rest.value);
      it := |s| - |rest.value|;
      start := it;
      NoText(out, s, it, Parse(s[it..], context.nextArgId));
    }
    TextEnds(s[it..], context.nextArgId);
    NoText(out + Lits(s[start..it]), s, 0, Accepted([]));
    r := Accepted(out + Lits(s[start..it]));
  }

  lemma RejectedStays(out: seq<Item>)
    ensures Prepend(out, Rejected) == Rejected
  {
  }

  lemma TextEnds(text: string, next: int)
    requires Peek(text) == NUL
    ensures Parse(text, next) == Accepted([])
  {
  }

  /** One replacement field: its text, then its references. */
  method TakeField(context: ParseContext, out: seq<Item>, text: string, ghost whole: Outcome)
    returns (out': seq<Item>, rest: Option<string>)
    requires whole == AfterBrace(text, context.nextArgId)
    modifies context
    ensures rest == None ==> whole == Rejected
    ensures rest.Some? ==>
      && |rest.value| < |text| && text[|text| - |rest.value|..] == rest.value
      && Prepend(out, whole) == Prepend(out', Parse(rest.value, context.nextArgId))
  {
    hide Parse, Prepend, ParseField, AssignItem;
    out', rest := out, None;
    var field := ScanField(text);
    if field.Ok? {
      ParsedFieldIsField(text);
      FieldIsSuffix(text);
      var item := context.Resolve(field.value);
      if item.Some? {
        PrependTwice(out, [item.value], Parse(field.rest, context.nextArgId));
        out', rest := out + [item.value], Some(field.rest);
      }
    }
  }
}
