/**
  `parse_arg_id` and `parse_format_specs`: the format-specifier grammar, its
  callbacks, and a printer.  The parser is the printer's exact inverse: it
  accepts precisely the printed forms of well-formed specifications, up to
  leading zeros in numbers.
 */
module FormatSpecs {
  import opened Decimal
  import opened ParseInt

  datatype Option<+T> = None | Some(value: T)

  // ----- data -----

  datatype ArgId = Auto | Index(n: nat) | Name(name: string)

  datatype Alignment = Left | Right | Numeric | Center

  datatype Sign = NoSign | Plus | Minus | Space

  /** A width or a precision. */
  datatype Count = Absent | Static(n: nat) | Dynamic(id: ArgId)

  datatype Align = DefaultAlign | Aligned(fill: Option<char>, alignment: Alignment)

  /** What one run of `parse_format_specs` reports to its handler; every part is reported at most once. */
  datatype Spec = Spec(
    align: Align,
    sign: Sign,
    hash: bool,
    zero: bool,
    width: Count,
    precision: Count,
    kind: Option<char>)

  /** The handler's member functions. */
  datatype Callback =
    | OnFill(fill: char)
    | OnAlign(alignment: Alignment)
    | OnPlus
    | OnMinus
    | OnSpace
    | OnHash
    | OnZero
    | OnWidth(width: nat)
    | OnDynamicWidth(widthId: ArgId)
    | OnPrecision(precision: nat)
    | OnDynamicPrecision(precisionId: ArgId)
    | EndPrecision
    | OnType(kind: char)

  /** The callbacks for a specification: grammar order. */
  function Callbacks(spec: Spec): seq<Callback> {
    AlignCallbacks(spec.align) + FlagCallbacks(spec.sign, spec.hash, spec.zero)
    + WidthCallbacks(spec.width) + PrecisionCallbacks(spec.precision) + TypeCallbacks(spec.kind)
  }

  function FlagCallbacks(sign: Sign, hash: bool, zero: bool): seq<Callback> {
    SignCallbacks(sign) + (if hash then [OnHash] else []) + (if zero then [OnZero] else [])
  }

  function AlignCallbacks(a: Align): seq<Callback> {
    match a
    case DefaultAlign => []
    case Aligned(None, alignment) => [OnAlign(alignment)]
    case Aligned(Some(c), alignment) => [OnFill(c), OnAlign(alignment)]
  }

  function SignCallbacks(sign: Sign): seq<Callback> {
    match sign
    case NoSign => []
    case Plus => [OnPlus]
    case Minus => [OnMinus]
    case Space => [OnSpace]
  }

  function WidthCallbacks(width: Count): seq<Callback> {
    match width
    case Absent => []
    case Static(n) => [OnWidth(n)]
    case Dynamic(id) => [OnDynamicWidth(id)]
  }

  function PrecisionCallbacks(precision: Count): seq<Callback> {
    match precision
    case Absent => []
    case Static(n) => [OnPrecision(n), EndPrecision]
    case Dynamic(id) => [OnDynamicPrecision(id), EndPrecision]
  }

  function TypeCallbacks(kind: Option<char>): seq<Callback> {
    if kind.Some? then [OnType(kind.value)] else []
  }

  // ----- argument ids -----

  predicate IsNameStart(c: char) {
    'a' <= c <= 'z' || 'A' <= c <= 'Z' || c == '_'
  }

  predicate IsNameChar(c: char) {
    IsNameStart(c) || IsDigit(c)
  }

  predicate EndsId(c: char) {
    c == '}' || c == ':'
  }

  function NameRun(text: string): (n: nat)
    ensures n <= |text| && (forall i :: 0 <= i < n ==> IsNameChar(text[i]))
    ensures !IsNameChar(Peek(text[n..]))
  {
    if text != [] && IsNameChar(text[0]) then 1 + NameRun(text[1..]) else 0
  }

  function ParseArgId(text: string): Parsed<ArgId> {
    var c := Peek(text);
    if EndsId(c) then Ok(Auto, text)
    else if IsDigit(c) then
      match Integer(text)
      case Error(message) => Error(message)
      case Ok(index, rest) => if EndsId(Peek(rest)) then Ok(Index(index), rest) else Error("invalid format string")
    else if !IsNameStart(c) then Error("invalid format string")
    else
      var n := NameRun(text);
      Ok(Name(text[..n]), text[n..])
  }

  ghost predicate ValidName(name: string) {
    name != [] && IsNameStart(name[0]) && forall i :: 0 <= i < |name| ==> IsNameChar(name[i])
  }

  ghost predicate ValidId(id: ArgId) {
    match id
    case Auto => true
    case Index(n) => n <= INT_MAX
    case Name(name) => ValidName(name)
  }

  function PrintId(id: ArgId): string {
    match id
    case Auto => ""
    case Index(n) => Digits(n)
    case Name(name) => name
  }

  lemma {:induction false} NameRunStops(name: string, rest: string)
    requires forall i :: 0 <= i < |name| ==> IsNameChar(name[i])
    requires !IsNameChar(Peek(rest))
    ensures NameRun(name + rest) == |name|
  {
    if name == [] {
      assert name + rest == rest;
    } else {
      assert (name + rest)[1..] == name[1..] + rest;
      NameRunStops(name[1..], rest);
    }
  }

  lemma IdRoundTrip(id: ArgId, rest: string)
    requires ValidId(id) && EndsId(Peek(rest))
    ensures ParseArgId(PrintId(id) + rest) == Ok(id, rest)
  {
    var text := PrintId(id) + rest;
    match id {
      case Auto =>
        assert text == rest;
      case Index(n) =>
        ValueOfDigits(n);
        assert text[0] == Digits(n)[0];
        IntegerOfDigits(n, rest);
      case Name(name) =>
        NameRunStops(name, rest);
        assert text[..|name|] == name && text[|name|..] == rest;
    }
  }

  lemma NameFacts(text: string)
    requires IsNameStart(Peek(text))
    ensures NameRun(text) >= 1 && ValidName(text[..NameRun(text)])
  {
  }

  lemma ParsedIdIsValid(text: string)
    ensures var r := ParseArgId(text);
      r.Ok? ==> ValidId(r.value) && |r.rest| <= |text| && text[|text| - |r.rest|..] == r.rest
    ensures var r := ParseArgId(text); r.Ok? && !r.value.Auto? ==> |r.rest| < |text|
  {
    if IsNameStart(Peek(text)) {
      NameFacts(text);
    }
    IntegerFacts(text);
    hide Integer, NameRun, ValidName;
  }

  /** The name loop of `parse_arg_id`. */
  method ScanName(text: string) returns (n: nat)
    requires IsNameStart(Peek(text))
    ensures n == NameRun(text)
  {
    n := 0;
    var c := Peek(text);
    while IsNameChar(c)
      invariant n <= |text| && c == Peek(text[n..]) && n + NameRun(text[n..]) == NameRun(text)
      decreases |text| - n
    {
      assert text[n..][1..] == text[n + 1..];
      n := n + 1;
      c := Peek(text[n..]);
    }
  }

  // ----- the specification grammar -----

  function AlignmentOf(c: char): Option<Alignment> {
    if c == '<' then Some(Left)
    else if c == '>' then Some(Right)
    else if c == '=' then Some(Numeric)
    else if c == '^' then Some(Center)
    else None
  }

  /** Fill and alignment: the second character is looked at before the first. */
  function ParseAlign(text: string): Parsed<Align>
    requires text != []
  {
    var second, first := AlignmentOf(Peek(text[1..])), AlignmentOf(text[0]);
    if second.Some? then
      if text[0] == '{' then Error("invalid fill character '{'")
      else Ok(Aligned(Some(text[0]), second.value), text[2..])
    else if first.Some? then Ok(Aligned(None, first.value), text[1..])
    else Ok(DefaultAlign, text)
  }

  function ParseSign(text: string): (Sign, string) {
    match Peek(text)
    case '+' => (Plus, text[1..])
    case '-' => (Minus, text[1..])
    case ' ' => (Space, text[1..])
    case _ => (NoSign, text)
  }

  function ParseFlag(text: string, flag: char): (bool, string)
    requires flag != NUL
  {
    if Peek(text) == flag then (true, text[1..]) else (false, text)
  }

  function ParseDynamic(text: string): Parsed<Count>
    requires Peek(text) == '{'
  {
    match ParseArgId(text[1..])
    case Error(message) => Error(message)
    case Ok(id, rest) => if Peek(rest) == '}' then Ok(Dynamic(id), rest[1..]) else Error("invalid format string")
  }

  function ParseStatic(text: string): Parsed<Count> {
    match Integer(text)
    case Error(message) => Error(message)
    case Ok(n, rest) => Ok(Static(n), rest)
  }

  function ParseWidth(text: string): Parsed<Count> {
    if IsDigit(Peek(text)) then ParseStatic(text)
    else if Peek(text) == '{' then ParseDynamic(text)
    else Ok(Absent, text)
  }

  function ParsePrecision(text: string): Parsed<Count> {
    if Peek(text) == '.' then
      if IsDigit(Peek(text[1..])) then ParseStatic(text[1..])
      else if Peek(text[1..]) == '{' then ParseDynamic(text[1..])
      else Error("missing precision specifier")
    else Ok(Absent, text)
  }

  function ParseKind(text: string): (Option<char>, string) {
    if Peek(text) != '}' && Peek(text) != NUL then (Some(text[0]), text[1..]) else (None, text)
  }

  const EMPTY: Spec := Spec(DefaultAlign, NoSign, false, false, Absent, Absent, None)

  /** The numeric part and the type letter. */
  datatype Counts = Counts(width: Count, precision: Count, kind: Option<char>)

  function ParseCounts(text: string): Parsed<Counts> {
    match ParseWidth(text)
    case Error(message) => Error(message)
    case Ok(width, rest) =>
      match ParsePrecision(rest)
      case Error(message) => Error(message)
      case Ok(precision, rest') =>
        var (kind, rest'') := ParseKind(rest');
        Ok(Counts(width, precision, kind), rest'')
  }

  function ParseFlags(text: string): (Sign, bool, bool, string) {
    var (sign, t1) := ParseSign(text);
    var (hash, t2) := ParseFlag(t1, '#');
    var (zero, t3) := ParseFlag(t2, '0');
    (sign, hash, zero, t3)
  }

  /** `parse_format_specs` up to the order of its callbacks, which `Callbacks` fixes. */
  function ParseSpecs(text: string): Parsed<Spec> {
    if Peek(text) == '}' || Peek(text) == NUL then Ok(EMPTY, text)
    else
      match ParseAlign(text)
      case Error(message) => Error(message)
      case Ok(align, rest) =>
        var (sign, hash, zero, rest') := ParseFlags(rest);
        match ParseCounts(rest')
        case Error(message) => Error(message)
        case Ok(counts, rest'') =>
          Ok(Spec(align, sign, hash, zero, counts.width, counts.precision, counts.kind), rest'')
  }

  // ----- the printer -----

  function AlignmentChar(a: Alignment): char {
    match a
    case Left => '<'
    case Right => '>'
    case Numeric => '='
    case Center => '^'
  }

  function PrintAlign(a: Align): string {
    match a
    case DefaultAlign => ""
    case Aligned(None, alignment) => [AlignmentChar(alignment)]
    case Aligned(Some(c), alignment) => [c, AlignmentChar(alignment)]
  }

  function PrintSign(sign: Sign): string {
    match sign
    case NoSign => ""
    case Plus => "+"
    case Minus => "-"
    case Space => " "
  }

  function PrintFlag(set_: bool, flag: char): string {
    if set_ then [flag] else ""
  }

  function PrintCount(count: Count): string {
    match count
    case Absent => ""
    case Static(n) => Digits(n)
    case Dynamic(id) => "{" + PrintId(id) + "}"
  }

  function PrintPrecision(precision: Count): string {
    if precision == Absent then "" else "." + PrintCount(precision)
  }

  function PrintKind(kind: Option<char>): string {
    if kind.Some? then [kind.value] else ""
  }

  function PrintFlags(sign: Sign, hash: bool, zero: bool): string {
    PrintSign(sign) + (PrintFlag(hash, '#') + PrintFlag(zero, '0'))
  }

  /** Everything before the type letter. */
  function PrintPrefix(spec: Spec): string {
    PrintAlign(spec.align) + PrintMiddle(spec)
  }

  function PrintMiddle(spec: Spec): string {
    PrintFlags(spec.sign, spec.hash, spec.zero) + (PrintCount(spec.width) + PrintPrecision(spec.precision))
  }

  function Print(spec: Spec): string {
    PrintPrefix(spec) + PrintKind(spec.kind)
  }

  // ----- which specifications have a printed form of their own -----

  ghost predicate ValidCount(count: Count) {
    match count
    case Absent => true
    case Static(n) => n <= INT_MAX
    case Dynamic(id) => ValidId(id)
  }

  ghost predicate ValidAlign(a: Align) {
    a.Aligned? && a.fill.Some? ==> a.fill.value != '{' && a.fill.value != '}' && a.fill.value != NUL
  }

  /** The type letter must not be read as a part that the specification lacks. */
  ghost predicate KindFits(spec: Spec, c: char) {
    && c != '}' && c != NUL
    && (spec.precision.Static? ==> !IsDigit(c))
    && (spec.precision.Absent? ==>
      && c != '.'
      && (!spec.width.Dynamic? ==> !IsDigit(c))
      && (spec.width.Absent? ==>
        && c != '{'
        && (!spec.zero && !spec.hash ==> c != '#')
        && (!spec.zero && !spec.hash && spec.sign.NoSign? ==> c != '+' && c != '-' && c != ' ')))
    && (AlignmentOf(c).Some? ==> |PrintPrefix(spec)| >= 2)
  }

  ghost predicate WellFormed(spec: Spec) {
    && ValidAlign(spec.align) && ValidCount(spec.width) && ValidCount(spec.precision)
    && (spec.width == Static(0) ==> spec.zero)
    && (spec.kind.Some? ==> KindFits(spec, spec.kind.value))
  }

  // ----- printing, then parsing -----

  lemma FlagRoundTrip(set_: bool, flag: char, rest: string)
    requires flag != NUL && (set_ || Peek(rest) != flag)
    ensures ParseFlag(PrintFlag(set_, flag) + rest, flag) == (set_, rest)
  {
    assert PrintFlag(false, flag) + rest == rest;
  }

  lemma SignRoundTrip(sign: Sign, rest: string)
    requires sign == NoSign ==> Peek(rest) != '+' && Peek(rest) != '-' && Peek(rest) != ' '
    ensures ParseSign(PrintSign(sign) + rest) == (sign, rest)
  {
    assert PrintSign(NoSign) + rest == rest;
    assert sign != NoSign ==> (PrintSign(sign) + rest)[1..] == rest;
  }

  lemma StaticRoundTrip(n: nat, rest: string)
    requires n <= INT_MAX && !IsDigit(Peek(rest))
    ensures IsDigit(Peek(Digits(n) + rest)) && ParseStatic(Digits(n) + rest) == Ok(Static(n), rest)
  {
    ValueOfDigits(n);
    IntegerOfDigits(n, rest);
    assert Peek(Digits(n) + rest) == Digits(n)[0];
  }

  lemma DynamicRoundTrip(id: ArgId, rest: string)
    requires ValidId(id)
    ensures Peek(PrintCount(Dynamic(id)) + rest) == '{'
    ensures ParseDynamic(PrintCount(Dynamic(id)) + rest) == Ok(Dynamic(id), rest)
  {
    IdRoundTrip(id, "}" + rest);
    Braced(PrintId(id), id, rest);
  }

  lemma Braced(body: string, id: ArgId, rest: string)
    requires ParseArgId(body + ("}" + rest)) == Ok(id, "}" + rest)
    ensures Peek("{" + body + "}" + rest) == '{'
    ensures ParseDynamic("{" + body + "}" + rest) == Ok(Dynamic(id), rest)
  {
    hide ParseArgId;
    assert ("{" + body + "}" + rest)[1..] == body + ("}" + rest);
    assert ("}" + rest)[1..] == rest;
  }

  lemma WidthRoundTrip(width: Count, rest: string)
    requires ValidCount(width)
    requires !width.Dynamic? ==> !IsDigit(Peek(rest))
    requires width.Absent? ==> Peek(rest) != '{'
    ensures ParseWidth(PrintCount(width) + rest) == Ok(width, rest)
  {
    match width {
      case Absent => assert PrintCount(width) + rest == rest;
      case Static(n) => StaticRoundTrip(n, rest);
      case Dynamic(id) => DynamicRoundTrip(id, rest);
    }
  }

  lemma PrecisionRoundTrip(precision: Count, rest: string)
    requires ValidCount(precision)
    requires precision.Static? ==> !IsDigit(Peek(rest))
    requires precision.Absent? ==> Peek(rest) != '.'
    ensures ParsePrecision(PrintPrecision(precision) + rest) == Ok(precision, rest)
  {
    var count := PrintCount(precision);
    match precision {
      case Absent => assert PrintPrecision(precision) + rest == rest;
      case Static(n) => StaticRoundTrip(n, rest);
      case Dynamic(id) => DynamicRoundTrip(id, rest);
    }
    if precision != Absent {
      Dotted(count, precision, rest);
    }
  }

  lemma Dotted(count: string, precision: Count, rest: string)
    requires || (IsDigit(Peek(count + rest)) && ParseStatic(count + rest) == Ok(precision, rest))
             || (Peek(count + rest) == '{' && ParseDynamic(count + rest) == Ok(precision, rest))
    ensures ParsePrecision("." + count + rest) == Ok(precision, rest)
  {
    hide ParseStatic, ParseDynamic;
    assert ("." + count + rest)[1..] == count + rest;
  }

  lemma KindRoundTrip(kind: Option<char>, rest: string)
    requires Peek(rest) == '}' && (kind.Some? ==> kind.value != '}' && kind.value != NUL)
    ensures ParseKind(PrintKind(kind) + rest) == (kind, rest)
  {
    assert PrintKind(None) + rest == rest;
  }

  function PrintCounts(spec: Spec): string {
    PrintCount(spec.width) + (PrintPrecision(spec.precision) + PrintKind(spec.kind))
  }

  /** The first character of the numeric part and what follows it. */
  function CountsStart(spec: Spec): char {
    match spec.width
    case Static(n) => Digits(n)[0]
    case Dynamic(_) => '{'
    case Absent =>
      if !spec.precision.Absent? then '.' else if spec.kind.Some? then spec.kind.value else '}'
  }

  lemma CountsStartIs(spec: Spec, rest: string)
    requires Peek(rest) == '}'
    ensures Peek(PrintCounts(spec) + rest) == CountsStart(spec)
  {
  }

  lemma Reassociate(a: string, b: string, c: string, d: string)
    ensures a + (b + c) + d == a + (b + (c + d))
  {
  }

  lemma CountsRoundTrip(spec: Spec, rest: string)
    requires WellFormed(spec) && Peek(rest) == '}'
    ensures ParseCounts(PrintCounts(spec) + rest) == Ok(Counts(spec.width, spec.precision, spec.kind), rest)
  {
    var a, b, c := PrintCount(spec.width), PrintPrecision(spec.precision), PrintKind(spec.kind);
    KindRoundTrip(spec.kind, rest);
    PrecisionRoundTrip(spec.precision, c + rest);
    WidthRoundTrip(spec.width, b + (c + rest));
    Reassociate(a, b, c, rest);
  }

  lemma FlagsRoundTrip(sign: Sign, hash: bool, zero: bool, rest: string)
    requires !zero ==> Peek(rest) != '0'
    requires !zero && !hash ==> Peek(rest) != '#'
    requires !zero && !hash && sign == NoSign ==> Peek(rest) != '+' && Peek(rest) != '-' && Peek(rest) != ' '
    ensures ParseFlags(PrintFlags(sign, hash, zero) + rest) == (sign, hash, zero, rest)
  {
    var a, b, c := PrintSign(sign), PrintFlag(hash, '#'), PrintFlag(zero, '0');
    FlagRoundTrip(zero, '0', rest);
    FlagRoundTrip(hash, '#', c + rest);
    SignRoundTrip(sign, b + (c + rest));
    Reassociate(a, b, c, rest);
  }

  lemma FlagsBeforeCounts(spec: Spec, rest: string)
    requires WellFormed(spec) && Peek(rest) == '}'
    ensures ParseFlags(PrintFlags(spec.sign, spec.hash, spec.zero) + (PrintCounts(spec) + rest))
         == (spec.sign, spec.hash, spec.zero, PrintCounts(spec) + rest)
  {
    CountsStartIs(spec, rest);
    if spec.width.Static? {
      DigitsStart(spec.width.n);
      ValueOfDigits(spec.width.n);
    }
    FlagsRoundTrip(spec.sign, spec.hash, spec.zero, PrintCounts(spec) + rest);
  }

  ghost predicate NoAlignment(s: string) {
    forall i :: 0 <= i < |s| ==> AlignmentOf(s[i]).None?
  }

  lemma NoAlignmentJoined(a: string, b: string)
    requires NoAlignment(a) && NoAlignment(b)
    ensures NoAlignment(a + b)
  {
  }

  lemma CountHasNoAlignment(count: Count)
    requires ValidCount(count)
    ensures NoAlignment(PrintCount(count))
    ensures PrintCount(count) == "" || Peek(PrintCount(count)) == '{' || IsDigit(Peek(PrintCount(count)))
  {
    match count {
      case Absent =>
      case Static(n) => ValueOfDigits(n);
      case Dynamic(id) =>
        if id.Index? {
          ValueOfDigits(id.n);
        }
        NoAlignmentJoined("{", PrintId(id));
        NoAlignmentJoined("{" + PrintId(id), "}");
    }
  }

  lemma MiddleHasNoAlignment(spec: Spec)
    requires ValidCount(spec.width) && ValidCount(spec.precision)
    ensures NoAlignment(PrintMiddle(spec))
    ensures PrintMiddle(spec) == "" || (Peek(PrintMiddle(spec)) != '}' && Peek(PrintMiddle(spec)) != NUL)
  {
    var flags := PrintFlags(spec.sign, spec.hash, spec.zero);
    var width, precision := PrintCount(spec.width), PrintPrecision(spec.precision);
    CountHasNoAlignment(spec.width);
    CountHasNoAlignment(spec.precision);
    FlagsHaveNoAlignment(spec.sign, spec.hash, spec.zero);
    NoAlignmentJoined(".", PrintCount(spec.precision));
    NoAlignmentJoined(width, precision);
    NoAlignmentJoined(flags, width + precision);
    assert precision == "" || Peek(precision) == '.';
    JoinedPeek(width, precision);
    JoinedPeek(flags, width + precision);
  }

  lemma JoinedPeek(a: string, b: string)
    ensures Peek(a + b) == if a == "" then Peek(b) else Peek(a)
  {
  }

  lemma FlagsHaveNoAlignment(sign: Sign, hash: bool, zero: bool)
    ensures var flags := PrintFlags(sign, hash, zero);
      NoAlignment(flags) && (flags == "" || (Peek(flags) != '}' && Peek(flags) != NUL))
  {
  }

  lemma AlignRoundTrip(a: Align, body: string)
    requires ValidAlign(a) && body != []
    requires a.Aligned? && a.fill.None? ==> AlignmentOf(body[0]).None?
    requires a.DefaultAlign? ==> AlignmentOf(body[0]).None? && AlignmentOf(Peek(body[1..])).None?
    ensures ParseAlign(PrintAlign(a) + body) == Ok(a, body)
  {
    var text := PrintAlign(a) + body;
    match a {
      case DefaultAlign =>
        assert text == body;
      case Aligned(None, alignment) =>
        assert text[1..] == body;
      case Aligned(Some(c), alignment) =>
        assert text[1..] == [AlignmentChar(alignment)] + body && text[2..] == body;
    }
  }

  /** Neither of the characters looked at for alignment can come from the rest of a well-formed specification. */
  lemma NoFalseAlignment(spec: Spec, rest: string)
    requires WellFormed(spec) && Peek(rest) == '}' && spec != EMPTY
    ensures var body := PrintMiddle(spec) + (PrintKind(spec.kind) + rest);
      && body != []
      && (spec.align.Aligned? && spec.align.fill.None? ==> AlignmentOf(body[0]).None?)
      && (spec.align.DefaultAlign? ==> AlignmentOf(body[0]).None? && AlignmentOf(Peek(body[1..])).None?)
      && (spec.align.DefaultAlign? ==> body[0] != '}' && body[0] != NUL)
  {
    MiddleHasNoAlignment(spec);
    var p, k := PrintMiddle(spec), PrintKind(spec.kind);
    var body := p + (k + rest);
    assert |p| >= 1 ==> body[0] == p[0];
    assert |p| >= 2 ==> body[1] == p[1];
    assert |p| == 0 ==> body == k + rest;
    assert |p| == 1 ==> body[1..] == k + rest;
    assert |PrintPrefix(spec)| == |PrintAlign(spec.align)| + |p|;
    if |p| == 0 && spec.align.DefaultAlign? && spec.kind.None? {
      EmptyMiddle(spec);
      assert false;
    }
  }

  lemma EmptyMiddle(spec: Spec)
    requires PrintMiddle(spec) == ""
    ensures spec == EMPTY.(align := spec.align, kind := spec.kind)
  {
    assert |PrintFlags(spec.sign, spec.hash, spec.zero)| == 0;
    assert |PrintCount(spec.width)| == 0 && |PrintPrecision(spec.precision)| == 0;
  }

  lemma Assembled(text: string, spec: Spec, body: string, tail: string, rest: string)
    requires Peek(text) != '}' && Peek(text) != NUL
    requires ParseAlign(text) == Ok(spec.align, body)
    requires ParseFlags(body) == (spec.sign, spec.hash, spec.zero, tail)
    requires ParseCounts(tail) == Ok(Counts(spec.width, spec.precision, spec.kind), rest)
    ensures ParseSpecs(text) == Ok(spec, rest)
  {
  }

  lemma AlignStage(spec: Spec, text: string, body: string, rest: string)
    requires WellFormed(spec) && Peek(rest) == '}' && spec != EMPTY
    requires text == PrintAlign(spec.align) + body && body == PrintMiddle(spec) + (PrintKind(spec.kind) + rest)
    ensures Peek(text) != '}' && Peek(text) != NUL && ParseAlign(text) == Ok(spec.align, body)
  {
    NoFalseAlignment(spec, rest);
    AlignRoundTrip(spec.align, body);
    JoinedPeek(PrintAlign(spec.align), body);
  }

  /** Parsing the printed form reports exactly the printed parts and stops at the closing brace. */
  lemma PrintThenParse(spec: Spec, rest: string)
    requires WellFormed(spec) && Peek(rest) == '}'
    ensures ParseSpecs(Print(spec) + rest) == Ok(spec, rest)
  {
    if spec == EMPTY {
      assert Print(spec) + rest == rest;
    } else {
      PrintedForm(spec, rest);
      var body := PrintMiddle(spec) + (PrintKind(spec.kind) + rest);
      NonEmpty(spec, Print(spec) + rest, body, PrintCounts(spec) + rest, rest);
    }
  }

  lemma NonEmpty(spec: Spec, text: string, body: string, tail: string, rest: string)
    requires WellFormed(spec) && Peek(rest) == '}' && spec != EMPTY
    requires text == PrintAlign(spec.align) + body && body == PrintMiddle(spec) + (PrintKind(spec.kind) + rest)
    requires body == PrintFlags(spec.sign, spec.hash, spec.zero) + tail && tail == PrintCounts(spec) + rest
    ensures ParseSpecs(text) == Ok(spec, rest)
  {
    AlignStage(spec, text, body, rest);
    FlagsBeforeCounts(spec, rest);
    CountsRoundTrip(spec, rest);
    Assembled(text, spec, body, tail, rest);
  }

  lemma PrintedForm(spec: Spec, rest: string)
    ensures Print(spec) + rest == PrintAlign(spec.align) + (PrintMiddle(spec) + (PrintKind(spec.kind) + rest))
    ensures PrintMiddle(spec) + (PrintKind(spec.kind) + rest)
         == PrintFlags(spec.sign, spec.hash, spec.zero) + (PrintCounts(spec) + rest)
  {
    var flags, width := PrintFlags(spec.sign, spec.hash, spec.zero), PrintCount(spec.width);
    var precision, kind := PrintPrecision(spec.precision), PrintKind(spec.kind);
    Nested(PrintAlign(spec.align), PrintMiddle(spec), kind, rest);
    Renested(flags, width, precision, kind, rest);
    hide PrintFlags, PrintCount, PrintPrecision, PrintKind, PrintAlign;
  }

  lemma Nested(a: string, b: string, c: string, d: string)
    ensures ((a + b) + c) + d == a + (b + (c + d))
  {
  }

  lemma Renested(a: string, b: string, c: string, d: string, e: string)
    ensures (a + (b + c)) + (d + e) == a + ((b + (c + d)) + e)
  {
  }

  // ----- parsing, then printing -----

  ghost predicate SuffixOf(rest: string, text: string) {
    |rest| <= |text| && text[|text| - |rest|..] == rest
  }

  lemma SuffixChain(a: string, b: string, c: string)
    requires SuffixOf(a, b) && SuffixOf(b, c)
    ensures SuffixOf(a, c)
  {
  }

  lemma StaticFacts(text: string)
    requires IsDigit(Peek(text)) && ParseStatic(text).Ok?
    ensures var r := ParseStatic(text);
      ValidCount(r.value) && r.value.Static? && !IsDigit(Peek(r.rest)) && SuffixOf(r.rest, text) && |r.rest| < |text|
    ensures text[0] != '0' ==>
      && ParseStatic(text).value.n > 0
      && |text| - |ParseStatic(text).rest| == |Digits(ParseStatic(text).value.n)|
  {
    IntegerFacts(text);
    var n := DigitRun(text);
    if text[0] != '0' {
      ValueOfRun(text[..n]);
    }
    hide Digits, Value;
  }

  lemma ValueOfRun(digits: string)
    requires AllDigits(digits) && digits != [] && digits[0] != '0'
    ensures Value(digits) > 0 && |Digits(Value(digits))| == |digits|
  {
    DigitsOfValue(digits);
    DigitsStart(Value(digits));
    hide Digits, Value;
  }

  lemma DynamicFacts(text: string)
    requires Peek(text) == '{' && ParseDynamic(text).Ok?
    ensures var r := ParseDynamic(text);
      ValidCount(r.value) && r.value.Dynamic? && SuffixOf(r.rest, text) && |r.rest| + 2 <= |text|
  {
    ParsedIdIsValid(text[1..]);
  }

  lemma WidthFacts(text: string)
    requires ParseWidth(text).Ok?
    ensures var r := ParseWidth(text);
      && ValidCount(r.value) && SuffixOf(r.rest, text)
      && (r.value.Absent? ==> r.rest == text && !IsDigit(Peek(text)) && Peek(text) != '{')
      && (r.value.Static? ==> !IsDigit(Peek(r.rest)))
      && (Peek(text) != '0' && r.value.Static? ==> r.value.n > 0 && |text| - |r.rest| == |PrintCount(r.value)|)
  {
    if IsDigit(Peek(text)) {
      StaticFacts(text);
    } else if Peek(text) == '{' {
      DynamicFacts(text);
    }
  }

  lemma PrecisionFacts(text: string)
    requires ParsePrecision(text).Ok?
    ensures var r := ParsePrecision(text);
      && ValidCount(r.value) && SuffixOf(r.rest, text)
      && (r.value.Absent? ==> r.rest == text && Peek(text) != '.')
      && (r.value.Static? ==> !IsDigit(Peek(r.rest)))
  {
    if Peek(text) == '.' {
      if IsDigit(Peek(text[1..])) {
        StaticFacts(text[1..]);
      } else if Peek(text[1..]) == '{' {
        DynamicFacts(text[1..]);
      }
    }
  }

  lemma SignFacts(text: string)
    ensures var (sign, rest) := ParseSign(text);
      && SuffixOf(rest, text) && |text| - |rest| == |PrintSign(sign)|
      && (sign == NoSign ==> rest == text && Peek(text) != '+' && Peek(text) != '-' && Peek(text) != ' ')
  {
  }

  lemma FlagFacts(text: string, flag: char)
    requires flag != NUL
    ensures var (present, rest) := ParseFlag(text, flag);
      && SuffixOf(rest, text) && |text| - |rest| == |PrintFlag(present, flag)|
      && (!present ==> rest == text && Peek(text) != flag)
  {
  }

  lemma FlagsFacts(text: string)
    ensures var (sign, hash, zero, rest) := ParseFlags(text);
      && SuffixOf(rest, text)
      && (!zero ==> Peek(rest) != '0')
      && (!zero && !hash ==> Peek(rest) != '#')
      && (!zero && !hash && sign == NoSign ==>
            rest == text && Peek(rest) != '+' && Peek(rest) != '-' && Peek(rest) != ' ')
      && |text| - |rest| == |PrintFlags(sign, hash, zero)|
  {
    hide SuffixOf, ParseSign, ParseFlag, PrintSign, PrintFlag, Peek;
    var t1 := ParseSign(text).1;
    var t2 := ParseFlag(t1, '#').1;
    SignFacts(text);
    FlagFacts(t1, '#');
    FlagFacts(t2, '0');
    SuffixChain(t2, t1, text);
    SuffixChain(ParseFlag(t2, '0').1, t2, text);
  }

  /** The successive remainders of an accepted text: after alignment, flags, width and precision. */
  ghost predicate Stages(text: string, body: string, tail: string, t1: string, t2: string, spec: Spec, rest: string) {
    && text != [] && ParseAlign(text) == Ok(spec.align, body)
    && ParseFlags(body) == (spec.sign, spec.hash, spec.zero, tail)
    && ParseWidth(tail) == Ok(spec.width, t1)
    && ParsePrecision(t1) == Ok(spec.precision, t2)
    && ParseKind(t2) == (spec.kind, rest)
  }

  lemma StageEquations(text: string, body: string, tail: string, t1: string, t2: string, spec: Spec, rest: string)
    requires Stages(text, body, tail, t1, t2, spec, rest)
    ensures text != [] && ParseAlign(text) == Ok(spec.align, body)
    ensures ParseFlags(body) == (spec.sign, spec.hash, spec.zero, tail)
    ensures ParseWidth(tail) == Ok(spec.width, t1) && ParsePrecision(t1) == Ok(spec.precision, t2)
    ensures ParseKind(t2) == (spec.kind, rest)
  {
  }

  lemma KindFacts(text: string)
    ensures SuffixOf(ParseKind(text).1, text)
    ensures ParseKind(text).0.Some? ==> text != [] && text[0] == Peek(text) == ParseKind(text).0.value
    ensures ParseKind(text).0.Some? ==> Peek(text) != '}' && Peek(text) != NUL
  {
  }

  lemma SplitStages(text: string) returns (body: string, tail: string, t1: string, t2: string)
    requires ParseSpecs(text).Ok? && Peek(text) != '}' && Peek(text) != NUL
    ensures Stages(text, body, tail, t1, t2, ParseSpecs(text).value, ParseSpecs(text).rest)
  {
    body := ParseAlign(text).rest;
    tail := ParseFlags(body).3;
    t1 := ParseWidth(tail).rest;
    t2 := ParsePrecision(t1).rest;
  }

  lemma PartsAreValid(text: string, body: string, tail: string, t1: string, t2: string, spec: Spec, rest: string)
    requires Stages(text, body, tail, t1, t2, spec, rest)
    ensures ValidCount(spec.width) && ValidCount(spec.precision)
    ensures spec.width == Static(0) ==> spec.zero
  {
    hide *;
    StageEquations(text, body, tail, t1, t2, spec, rest);
    FlagsFacts(body);
    WidthFacts(tail);
    PrecisionFacts(t1);
  }

  lemma AlignLength(text: string, align: Align, body: string)
    requires text != [] && ParseAlign(text) == Ok(align, body)
    ensures |text| - |body| == |PrintAlign(align)| && SuffixOf(body, text)
  {
  }

  lemma EachIsSuffix(text: string, body: string, tail: string, t1: string, t2: string, spec: Spec, rest: string)
    requires Stages(text, body, tail, t1, t2, spec, rest)
    ensures SuffixOf(body, text) && SuffixOf(tail, body) && SuffixOf(t1, tail) && SuffixOf(t2, t1) && SuffixOf(rest, t2)
  {
    hide *;
    StageEquations(text, body, tail, t1, t2, spec, rest);
    AlignLength(text, spec.align, body);
    FlagsFacts(body);
    WidthFacts(tail);
    PrecisionFacts(t1);
    KindFacts(t2);
  }

  lemma RestIsSuffix(text: string, body: string, tail: string, t1: string, t2: string, rest: string)
    requires SuffixOf(body, text) && SuffixOf(tail, body)
    requires SuffixOf(t1, tail) && SuffixOf(t2, t1) && SuffixOf(rest, t2)
    ensures SuffixOf(rest, text)
  {
    hide *;
    SuffixChain(tail, body, text);
    SuffixChain(t1, tail, text);
    SuffixChain(t2, t1, text);
    SuffixChain(rest, t2, text);
  }

  lemma KindIsNotAnotherPart(text: string, body: string, tail: string, t1: string, t2: string, spec: Spec, rest: string)
    requires Stages(text, body, tail, t1, t2, spec, rest) && spec.kind.Some?
    ensures var c := spec.kind.value;
      && Peek(t2) == c && c != '}' && c != NUL
      && (spec.precision.Static? ==> !IsDigit(c))
      && (spec.precision.Absent? ==> t1 == t2 && c != '.' && (!spec.width.Dynamic? ==> !IsDigit(c)))
      && (spec.precision.Absent? && spec.width.Absent? ==>
        && c != '{' && (!spec.zero && !spec.hash ==> c != '#')
        && (!spec.zero && !spec.hash && spec.sign.NoSign? ==> c != '+' && c != '-' && c != ' '))
  {
    hide *;
    StageEquations(text, body, tail, t1, t2, spec, rest);
    KindFacts(t2);
    FlagsFacts(body);
    WidthFacts(tail);
    PrecisionFacts(t1);
  }

  lemma AbsentPrecision(precision: Count)
    ensures precision.Absent? || |PrintPrecision(precision)| >= 2
  {
    if precision.Static? {
      assert |Digits(precision.n)| >= 1;
    }
  }

  lemma SuffixIndex(rest: string, text: string, k: nat)
    requires SuffixOf(rest, text) && k < |rest|
    ensures rest[k] == text[|text| - |rest| + k]
  {
  }

  lemma FirstTwo(text: string, align: Align, body: string, tail: string, at: nat, c: char)
    requires text != [] && ParseAlign(text) == Ok(align, body) && SuffixOf(tail, text)
    requires |text| - |body| == |PrintAlign(align)|
    requires |text| - |tail| + at < 2 && |tail| <= |body|
    requires at < |tail| && tail[at] == c
    ensures AlignmentOf(c).None?
  {
    SuffixIndex(tail, text, at);
    assert |text| >= 2 ==> Peek(text[1..]) == text[1];
  }

  /** With nothing or a single character before it, an alignment character is never read as the type. */
  lemma KindAfterShortPrefix(text: string, body: string, tail: string, t1: string, t2: string, spec: Spec, rest: string)
    requires Stages(text, body, tail, t1, t2, spec, rest) && spec.kind.Some? && |PrintPrefix(spec)| < 2
    ensures AlignmentOf(spec.kind.value).None?
  {
    hide *;
    StageEquations(text, body, tail, t1, t2, spec, rest);
    ShortLengths(text, body, tail, t1, t2, spec, rest);
    WidthLetter(tail, t1, |PrintCount(spec.width)|);
    FirstTwo(text, spec.align, body, tail, |PrintCount(spec.width)|, spec.kind.value);
  }

  lemma WidthLetter(tail: string, t1: string, at: nat)
    requires SuffixOf(t1, tail) && t1 != [] && |tail| - |t1| == at
    ensures at < |tail| && tail[at] == t1[0]
  {
    SuffixIndex(t1, tail, 0);
  }

  lemma ShortLengths(text: string, body: string, tail: string, t1: string, t2: string, spec: Spec, rest: string)
    requires Stages(text, body, tail, t1, t2, spec, rest) && spec.kind.Some? && |PrintPrefix(spec)| < 2
    ensures SuffixOf(tail, text) && |text| - |body| == |PrintAlign(spec.align)| && |tail| <= |body|
    ensures |text| - |tail| + |PrintCount(spec.width)| < 2
    ensures SuffixOf(t1, tail) && t1 != [] && |tail| - |t1| == |PrintCount(spec.width)| && t1[0] == spec.kind.value
  {
    hide *;
    PrefixLength(spec);
    AbsentPrecision(spec.precision);
    ShortStages(text, body, tail, t1, t2, spec, rest);
    EachIsSuffix(text, body, tail, t1, t2, spec, rest);
    BodyLength(text, body, tail, t1, t2, spec, rest);
    SuffixChain(tail, body, text);
  }

  lemma BodyLength(text: string, body: string, tail: string, t1: string, t2: string, spec: Spec, rest: string)
    requires Stages(text, body, tail, t1, t2, spec, rest)
    ensures |text| - |body| == |PrintAlign(spec.align)|
  {
    hide *;
    StageEquations(text, body, tail, t1, t2, spec, rest);
    AlignLength(text, spec.align, body);
  }

  lemma ShortStages(text: string, body: string, tail: string, t1: string, t2: string, spec: Spec, rest: string)
    requires Stages(text, body, tail, t1, t2, spec, rest) && spec.kind.Some? && spec.precision.Absent?
    requires |PrintFlags(spec.sign, spec.hash, spec.zero)| + |PrintCount(spec.width)| < 2
    ensures SuffixOf(tail, body) && |body| - |tail| == |PrintFlags(spec.sign, spec.hash, spec.zero)|
    ensures SuffixOf(t1, tail) && |tail| - |t1| == |PrintCount(spec.width)|
    ensures t1 != [] && t1[0] == spec.kind.value
  {
    hide *;
    StageEquations(text, body, tail, t1, t2, spec, rest);
    PrefixLength(spec);
    KindFacts(t2);
    FlagsFacts(body);
    PrecisionFacts(t1);
    ShortWidth(tail, spec.width, t1, PrintFlags(spec.sign, spec.hash, spec.zero));
  }

  lemma PrefixLength(spec: Spec)
    ensures |PrintPrefix(spec)| == |PrintAlign(spec.align)| + |PrintFlags(spec.sign, spec.hash, spec.zero)|
      + |PrintCount(spec.width)| + |PrintPrecision(spec.precision)|
    ensures spec.zero ==> |PrintFlags(spec.sign, spec.hash, spec.zero)| >= 1
  {
  }

  lemma ShortWidth(tail: string, width: Count, t1: string, flags: string)
    requires ParseWidth(tail) == Ok(width, t1) && |flags| + |PrintCount(width)| < 2
    requires Peek(tail) == '0' ==> |flags| >= 1
    ensures |tail| - |t1| == |PrintCount(width)| && SuffixOf(t1, tail)
  {
    WidthFacts(tail);
    match width {
      case Absent =>
      case Static(n) => assert |Digits(n)| >= 1;
      case Dynamic(id) =>
    }
  }

  /** Every accepted text yields a well-formed specification and stops inside the text. */
  lemma ParsedIsWellFormed(text: string)
    requires ParseSpecs(text).Ok?
    ensures WellFormed(ParseSpecs(text).value) && SuffixOf(ParseSpecs(text).rest, text)
  {
    if Peek(text) != '}' && Peek(text) != NUL {
      var spec, rest := ParseSpecs(text).value, ParseSpecs(text).rest;
      var body, tail, t1, t2 := SplitStages(text);
      StagesAreWellFormed(text, body, tail, t1, t2, spec, rest);
    }
  }

  lemma AlignIsValid(text: string, align: Align, body: string)
    requires text != [] && text[0] != '}' && text[0] != NUL && ParseAlign(text) == Ok(align, body)
    ensures ValidAlign(align)
  {
  }

  lemma StagesAreWellFormed(text: string, body: string, tail: string, t1: string, t2: string, spec: Spec, rest: string)
    requires Stages(text, body, tail, t1, t2, spec, rest) && text[0] != '}' && text[0] != NUL
    ensures WellFormed(spec) && SuffixOf(rest, text)
  {
    hide PrintPrefix, Stages, SuffixOf, ValidCount, ValidAlign, AlignmentOf, Peek, IsDigit, ParseAlign;
    StageEquations(text, body, tail, t1, t2, spec, rest);
    AlignIsValid(text, spec.align, body);
    PartsAreValid(text, body, tail, t1, t2, spec, rest);
    EachIsSuffix(text, body, tail, t1, t2, spec, rest);
    RestIsSuffix(text, body, tail, t1, t2, rest);
    if spec.kind.Some? {
      KindIsNotAnotherPart(text, body, tail, t1, t2, spec, rest);
      if |PrintPrefix(spec)| < 2 {
        KindAfterShortPrefix(text, body, tail, t1, t2, spec, rest);
      }
    }
  }

  /** Well-formedness is the exact condition of the round trip. */
  lemma RoundTripExactly(spec: Spec, rest: string)
    requires Peek(rest) == '}'
    ensures ParseSpecs(Print(spec) + rest) == Ok(spec, rest) <==> WellFormed(spec)
  {
    if WellFormed(spec) {
      PrintThenParse(spec, rest);
    } else if ParseSpecs(Print(spec) + rest).Ok? {
      ParsedIsWellFormed(Print(spec) + rest);
    }
  }

  /** Two specifications that do not survive: a width of 0 without the zero flag, and a type that reads as a sign. */
  lemma LostSpecifications()
    ensures Print(EMPTY.(width := Static(0))) == "0" && ParseSpecs("0}") == Ok(EMPTY.(zero := true), "}")
    ensures Print(EMPTY.(kind := Some('+'))) == "+" && ParseSpecs("+}") == Ok(EMPTY.(sign := Plus), "}")
  {
    ZeroWidth();
    PlusType();
    hide *;
  }

  lemma ZeroWidth()
    ensures Print(EMPTY.(width := Static(0))) == "0" && ParseSpecs("0}") == Ok(EMPTY.(zero := true), "}")
  {
    assert PrintCount(Static(0)) == "0";
    NothingElse();
    assert ParseAlign("0}") == Ok(DefaultAlign, "0}");
    assert ParseFlags("0}") == (NoSign, false, true, "}") by {
      assert "0}"[1..] == "}";
    }
    hide ParseAlign, ParseFlags, ParseCounts, PrintCount;
  }

  lemma PlusType()
    ensures Print(EMPTY.(kind := Some('+'))) == "+" && ParseSpecs("+}") == Ok(EMPTY.(sign := Plus), "}")
  {
    NothingElse();
    assert ParseAlign("+}") == Ok(DefaultAlign, "+}");
    assert ParseFlags("+}") == (Plus, false, false, "}") by {
      assert "+}"[1..] == "}";
    }
    hide ParseAlign, ParseFlags, ParseCounts;
  }

  lemma NothingElse()
    ensures ParseCounts("}") == Ok(Counts(Absent, Absent, None), "}")
  {
  }

  /** Printing what was parsed gives a normal form: it parses to the same specification. */
  lemma NormalForm(text: string)
    requires ParseSpecs(text).Ok? && Peek(ParseSpecs(text).rest) == '}'
    ensures ParseSpecs(Print(ParseSpecs(text).value) + ParseSpecs(text).rest) == ParseSpecs(text)
  {
    ParsedIsWellFormed(text);
    PrintThenParse(ParseSpecs(text).value, ParseSpecs(text).rest);
  }

  // ----- what each character causes -----

  ghost predicate NoAlignmentAt(text: string, i: nat) {
    i < |text| ==> text[i] != '<' && text[i] != '>' && text[i] != '=' && text[i] != '^'
  }

  /** An alignment character in second place makes the first character the fill. */
  lemma SecondCharacter(text: string)
    requires |text| >= 2 && text[0] != '}' && text[0] != NUL && text[0] != '{' && ParseSpecs(text).Ok?
    ensures var calls := Callbacks(ParseSpecs(text).value);
      && (!NoAlignmentAt(text, 1) ==> |calls| >= 2 && calls[0] == OnFill(text[0]))
      && (text[1] == '<' ==> calls[1] == OnAlign(Left))
      && (text[1] == '>' ==> calls[1] == OnAlign(Right))
      && (text[1] == '=' ==> calls[1] == OnAlign(Numeric))
      && (text[1] == '^' ==> calls[1] == OnAlign(Center))
  {
    var body, tail, t1, t2 := SplitStages(text);
    StageEquations(text, body, tail, t1, t2, ParseSpecs(text).value, ParseSpecs(text).rest);
    hide ParseSpecs, ParseFlags, ParseWidth, ParsePrecision, ParseKind, Stages;
    hide FlagCallbacks, WidthCallbacks, PrecisionCallbacks, TypeCallbacks;
  }

  /** A brace cannot be a fill. */
  lemma BraceFill(text: string)
    requires |text| >= 2 && text[0] == '{' && !NoAlignmentAt(text, 1)
    ensures ParseSpecs(text) == Error("invalid fill character '{'")
  {
  }

  /** Without an alignment character in second place the first character alone decides the first callback. */
  lemma FirstCharacter(text: string)
    requires text != [] && text[0] != '}' && text[0] != NUL && NoAlignmentAt(text, 1) && ParseSpecs(text).Ok?
    ensures var calls, c := Callbacks(ParseSpecs(text).value), text[0];
      && |calls| >= 1
      && (c == '<' ==> calls[0] == OnAlign(Left))
      && (c == '>' ==> calls[0] == OnAlign(Right))
      && (c == '=' ==> calls[0] == OnAlign(Numeric))
      && (c == '^' ==> calls[0] == OnAlign(Center))
      && (c == '+' ==> calls[0] == OnPlus)
      && (c == '-' ==> calls[0] == OnMinus)
      && (c == ' ' ==> calls[0] == OnSpace)
      && (c == '#' ==> calls[0] == OnHash)
      && (c == '0' ==> calls[0] == OnZero)
      && ('1' <= c <= '9' ==> calls[0].OnWidth?)
      && (c == '{' ==> calls[0].OnDynamicWidth?)
      && (c == '.' ==> calls[0].OnPrecision? || calls[0].OnDynamicPrecision?)
      && (c !in "<>=^+- #0123456789{." ==> calls == [OnType(c)] && ParseSpecs(text).rest == text[1..])
  {
    var spec := ParseSpecs(text).value;
    var body, tail, t1, t2 := SplitStages(text);
    StageEquations(text, body, tail, t1, t2, spec, ParseSpecs(text).rest);
    hide ParseSpecs, Stages;
    if NoAlignmentAt(text, 0) {
      assert ParseAlign(text) == Ok(DefaultAlign, text);
      hide ParseAlign;
      FirstAfterAlign(text, tail, t1, t2, spec, ParseSpecs(text).rest);
    } else {
      AlignFirst(text, spec);
    }
    hide *;
  }

  lemma AlignFirst(text: string, spec: Spec)
    requires text != [] && NoAlignmentAt(text, 1) && !NoAlignmentAt(text, 0)
    requires ParseAlign(text).Ok? && ParseAlign(text).value == spec.align
    ensures var calls, c := Callbacks(spec), text[0];
      && |calls| >= 1
      && (c == '<' ==> calls[0] == OnAlign(Left))
      && (c == '>' ==> calls[0] == OnAlign(Right))
      && (c == '=' ==> calls[0] == OnAlign(Numeric))
      && (c == '^' ==> calls[0] == OnAlign(Center))
  {
    hide FlagCallbacks, WidthCallbacks, PrecisionCallbacks, TypeCallbacks;
  }

  lemma FirstAfterAlign(text: string, tail: string, t1: string, t2: string, spec: Spec, rest: string)
    requires text != [] && text[0] != '}' && text[0] != NUL && spec.align == DefaultAlign
    requires ParseFlags(text) == (spec.sign, spec.hash, spec.zero, tail)
    requires ParseWidth(tail) == Ok(spec.width, t1) && ParsePrecision(t1) == Ok(spec.precision, t2)
    requires ParseKind(t2) == (spec.kind, rest)
    ensures var calls, c := Callbacks(spec), text[0];
      && |calls| >= 1
      && (c == '+' ==> calls[0] == OnPlus)
      && (c == '-' ==> calls[0] == OnMinus)
      && (c == ' ' ==> calls[0] == OnSpace)
      && (c == '#' ==> calls[0] == OnHash)
      && (c == '0' ==> calls[0] == OnZero)
      && ('1' <= c <= '9' ==> calls[0].OnWidth?)
      && (c == '{' ==> calls[0].OnDynamicWidth?)
      && (c == '.' ==> calls[0].OnPrecision? || calls[0].OnDynamicPrecision?)
      && (c !in "<>=^+- #0123456789{." ==> calls == [OnType(c)] && rest == text[1..])
  {
    var c := text[0];
    if c == '+' || c == '-' || c == ' ' || c == '#' || c == '0' {
      hide ParseWidth, ParsePrecision, ParseKind, WidthCallbacks, PrecisionCallbacks, TypeCallbacks;
    } else {
      NoFlags(text);
      hide ParseFlags;
      FirstCount(text, t1, t2, spec, rest);
    }
  }

  lemma NoFlags(text: string)
    requires text != [] && text[0] !in "+- #0"
    ensures ParseFlags(text) == (NoSign, false, false, text)
  {
  }

  lemma FirstCount(text: string, t1: string, t2: string, spec: Spec, rest: string)
    requires text != [] && text[0] != '}' && text[0] != NUL && text[0] != '0'
    requires spec.align == DefaultAlign && spec.sign == NoSign && !spec.hash && !spec.zero
    requires ParseWidth(text) == Ok(spec.width, t1) && ParsePrecision(t1) == Ok(spec.precision, t2)
    requires ParseKind(t2) == (spec.kind, rest)
    ensures var calls, c := Callbacks(spec), text[0];
      && |calls| >= 1
      && ('1' <= c <= '9' ==> calls[0].OnWidth?)
      && (c == '{' ==> calls[0].OnDynamicWidth?)
      && (c == '.' ==> calls[0].OnPrecision? || calls[0].OnDynamicPrecision?)
      && (c !in "0123456789{." ==> calls == [OnType(c)] && rest == text[1..])
  {
    WidthStart(text);
    if spec.width.Absent? {
      PrecisionStart(text);
    }
    assert Callbacks(spec) ==
      WidthCallbacks(spec.width) + PrecisionCallbacks(spec.precision) + TypeCallbacks(spec.kind) by {
      hide WidthCallbacks, PrecisionCallbacks, TypeCallbacks;
    }
    hide ParseWidth, ParsePrecision, Callbacks;
  }

  lemma WidthStart(text: string)
    requires text != [] && ParseWidth(text).Ok?
    ensures var width := ParseWidth(text).value;
      && ('0' <= text[0] <= '9' ==> width.Static?)
      && (text[0] == '{' ==> width.Dynamic?)
      && (!('0' <= text[0] <= '9') && text[0] != '{' ==> ParseWidth(text) == Ok(Absent, text))
  {
    hide Integer, ParseArgId;
  }

  lemma PrecisionStart(text: string)
    requires text != [] && ParsePrecision(text).Ok?
    ensures var precision := ParsePrecision(text).value;
      && (text[0] == '.' ==> !precision.Absent?)
      && (text[0] != '.' ==> ParsePrecision(text) == Ok(Absent, text))
  {
    hide Integer, ParseArgId;
  }

  /** The first character of an id decides; only a brace or a colon may follow a number or mean no id. */
  lemma FirstOfId(text: string)
    ensures var c, r := Peek(text), ParseArgId(text);
      && (c == '}' || c == ':' ==> r == Ok(Auto, text))
      && ('0' <= c <= '9' && r.Ok? ==> r.value.Index? && (Peek(r.rest) == '}' || Peek(r.rest) == ':'))
      && ('0' <= c <= '9' && r.Error? ==> r.message == "number is too big" || r.message == "invalid format string")
      && (c != '}' && c != ':' && !('0' <= c <= '9') && !('a' <= c <= 'z') && !('A' <= c <= 'Z') && c != '_' ==>
            r == Error("invalid format string"))
  {
    hide DigitRun, Value, NameRun;
  }

  /** Names are made of ASCII letters, digits and underscores and do not begin with a digit: these are read... */
  lemma NamesAreRead(name: string, rest: string)
    requires name != [] && !('0' <= name[0] <= '9')
    requires forall i :: 0 <= i < |name| ==>
      'a' <= name[i] <= 'z' || 'A' <= name[i] <= 'Z' || name[i] == '_' || '0' <= name[i] <= '9'
    requires Peek(rest) == '}' || Peek(rest) == ':'
    ensures ParseArgId(name + rest) == Ok(Name(name), rest)
  {
    assert PrintId(Name(name)) == name;
    IdRoundTrip(Name(name), rest);
    hide ParseArgId;
  }

  /** ... and no others. */
  lemma OnlyNamesAreRead(text: string)
    requires ParseArgId(text).Ok? && ParseArgId(text).value.Name?
    ensures var name := ParseArgId(text).value.name;
      && name != [] && !('0' <= name[0] <= '9')
      && forall i :: 0 <= i < |name| ==>
           'a' <= name[i] <= 'z' || 'A' <= name[i] <= 'Z' || name[i] == '_' || '0' <= name[i] <= '9'
  {
    ParsedIdIsValid(text);
    hide ParseArgId;
  }

  // ----- the code: callbacks in the order in which they are made -----

  method ParseId(text: string) returns (r: Parsed<ArgId>)
    ensures r == ParseArgId(text)
  {
    var c := Peek(text);
    if EndsId(c) {
      return Ok(Auto, text);
    }
    if IsDigit(c) {
      var index := ParseNonnegativeInt(text);
      match index {
        case Error(message) => return Error(message);
        case Ok(n, rest) =>
          if !EndsId(Peek(rest)) {
            return Error("invalid format string");
          }
          return Ok(Index(n), rest);
      }
    }
    if !IsNameStart(c) {
      return Error("invalid format string");
    }
    var n := ScanName(text);
    r := Ok(Name(text[..n]), text[n..]);
  }

  /** The loop over the two places where an alignment character may stand. */
  method ScanAlign(text: string) returns (r: Parsed<Align>)
    requires text != []
    ensures r == ParseAlign(text)
  {
    var i := 1;
    while i >= 0
      invariant -1 <= i <= 1
      invariant i < 1 ==> AlignmentOf(Peek(text[1..])).None?
      invariant i < 0 ==> AlignmentOf(text[0]).None?
    {
      var align := AlignmentOf(Peek(text[i..]));
      if align.Some? {
        if i != 0 {
          if text[0] == '{' {
            return Error("invalid fill character '{'");
          }
          return Ok(Aligned(Some(text[0]), align.value), text[2..]);
        }
        return Ok(Aligned(None, align.value), text[1..]);
      }
      i := i - 1;
    }
    r := Ok(DefaultAlign, text);
  }

  /** A number or a braced argument id. */
  method ScanCount(text: string) returns (r: Parsed<Count>, told: Count)
    requires IsDigit(Peek(text)) || Peek(text) == '{'
    ensures r == if IsDigit(Peek(text)) then ParseStatic(text) else ParseDynamic(text)
    ensures told == ToldCount(text)
  {
    told := Absent;
    if IsDigit(Peek(text)) {
      var n := ParseNonnegativeInt(text);
      r := if n.Ok? then Ok(Static(n.value), n.rest) else Error(n.message);
      return;
    }
    var id := ParseId(text[1..]);
    match id {
      case Error(message) => r := Error(message);
      case Ok(value, rest) =>
        told := Dynamic(value);
        r := if Peek(rest) == '}' then Ok(Dynamic(value), rest[1..]) else Error("invalid format string");
    }
  }

  method ScanFlags(text: string) returns (calls: seq<Callback>, it: string)
    ensures var (sign, hash, zero, rest) := ParseFlags(text);
      it == rest && calls == FlagCallbacks(sign, hash, zero)
  {
    calls, it := [], text;
    match Peek(it) {
      case '+' => calls, it := calls + [OnPlus], it[1..];
      case '-' => calls, it := calls + [OnMinus], it[1..];
      case ' ' => calls, it := calls + [OnSpace], it[1..];
      case _ =>
    }
    if Peek(it) == '#' {
      calls, it := calls + [OnHash], it[1..];
    }
    if Peek(it) == '0' {
      calls, it := calls + [OnZero], it[1..];
    }
  }

  method ScanWidth(text: string) returns (r: Parsed<Count>, told: Count)
    ensures r == ParseWidth(text) && (r.Error? ==> told == ToldCount(text))
  {
    if IsDigit(Peek(text)) || Peek(text) == '{' {
      r, told := ScanCount(text);
    } else {
      r, told := Ok(Absent, text), Absent;
    }
  }

  method ScanPrecision(text: string) returns (r: Parsed<Count>, told: Count)
    ensures r == ParsePrecision(text) && (r.Error? ==> text != [] && told == ToldCount(text[1..]))
  {
    if Peek(text) != '.' {
      return Ok(Absent, text), Absent;
    }
    var it := text[1..];
    if !IsDigit(Peek(it)) && Peek(it) != '{' {
      return Error("missing precision specifier"), Absent;
    }
    r, told := ScanCount(it);
  }

  /** The id that the handler is told before the brace behind it is looked at. */
  function ToldCount(text: string): (count: Count)
    ensures count.Dynamic? || count.Absent?
  {
    if Peek(text) == '{' && ParseArgId(text[1..]).Ok? then Dynamic(ParseArgId(text[1..]).value) else Absent
  }

  /** The parts that were read before the first error. */
  function SoFar(text: string): Spec {
    if text == [] || ParseAlign(text).Error? then EMPTY
    else
      var align := ParseAlign(text);
      var (sign, hash, zero, rest) := ParseFlags(align.rest);
      var width := ParseWidth(rest);
      var parts := Spec(align.value, sign, hash, zero, Absent, Absent, None);
      if width.Error? then parts.(width := ToldCount(rest))
      else if ParsePrecision(width.rest).Ok? then parts.(width := width.value)
      else parts.(width := width.value, precision := ToldCount(width.rest[1..]))
  }

  /** The callbacks due for these parts; a precision with an error is begun but not ended. */
  ghost predicate ToldSoFar(calls: seq<Callback>, spec: Spec) {
    calls + (if spec.precision.Dynamic? then [EndPrecision] else []) == Callbacks(spec)
  }

  lemma NothingTold()
    ensures ToldSoFar([], EMPTY)
  {
  }

  lemma WidthTold(spec: Spec, id: Count)
    requires spec.width == Absent && spec.precision == Absent && spec.kind == None && (id.Dynamic? || id.Absent?)
    ensures ToldSoFar(AlignCallbacks(spec.align) + FlagCallbacks(spec.sign, spec.hash, spec.zero)
                      + (if id.Dynamic? then [OnDynamicWidth(id.id)] else []),
                      spec.(width := id))
  {
    hide AlignCallbacks, FlagCallbacks;
  }

  lemma PrecisionTold(spec: Spec, id: Count)
    requires spec.precision == Absent && spec.kind == None && (id.Dynamic? || id.Absent?)
    ensures ToldSoFar(AlignCallbacks(spec.align) + FlagCallbacks(spec.sign, spec.hash, spec.zero)
                      + WidthCallbacks(spec.width)
                      + (if id.Dynamic? then [OnDynamicPrecision(id.id)] else []),
                      spec.(precision := id))
  {
    hide AlignCallbacks, FlagCallbacks, WidthCallbacks;
  }

  /**
    `parse_format_specs`: the handler is told every part as soon as it is read,
    so after an error it has been told the parts before it, in grammar order.
   */
  method ParseFormatSpecs(text: string) returns (calls: seq<Callback>, error: Option<string>, it: string)
    ensures match ParseSpecs(text)
      case Error(message) => error == Some(message) && ToldSoFar(calls, SoFar(text))
      case Ok(spec, rest) => error == None && calls == Callbacks(spec) && it == rest
  {
    hide ParseAlign, ParseFlags, ParseWidth, ParsePrecision, ToldSoFar, ToldCount;
    hide AlignCallbacks, FlagCallbacks, WidthCallbacks, PrecisionCallbacks;
    calls, error, it := [], None, text;
    if Peek(it) == '}' || Peek(it) == NUL {
      NoCallbacks();
      return;
    }
    var align := ScanAlign(it);
    if align.Error? {
      NothingTold();
      error := Some(align.message);
      return;
    }
    var flags;
    flags, it := ScanFlags(align.rest);
    calls := AlignCallbacks(align.value) + flags;
    ghost var (sign, hash, zero, rest) := ParseFlags(align.rest);
    ghost var parts := Spec(align.value, sign, hash, zero, Absent, Absent, None);
    var width, told := ScanWidth(it);
    if width.Error? {
      WidthTold(parts, told);
      if told.Dynamic? {
        calls := calls + [OnDynamicWidth(told.id)];
      } else {
        assert calls + [] == calls;
      }
      error := Some(width.message);
      return;
    }
    calls := calls + WidthCallbacks(width.value);
    var precision;
    precision, told := ScanPrecision(width.rest);
    if precision.Error? {
      PrecisionTold(parts.(width := width.value), told);
      if told.Dynamic? {
        calls := calls + [OnDynamicPrecision(told.id)];
      } else {
        assert calls + [] == calls;
      }
      error := Some(precision.message);
      return;
    }
    calls, it := calls + PrecisionCallbacks(precision.value), precision.rest;
    if Peek(it) != '}' && Peek(it) != NUL {
      calls, it := calls + [OnType(it[0])], it[1..];
    }
  }

  lemma NoCallbacks()
    ensures Callbacks(EMPTY) == []
  {
  }

  // ----- the callbacks carry the whole specification -----

  /** What a handler that keeps every part knows after one more callback. */
  function Told(spec: Spec, call: Callback): Spec {
    match call
    case OnFill(c) => spec.(align := Aligned(Some(c), Left))
    case OnAlign(a) => spec.(align := Aligned(if spec.align.Aligned? then spec.align.fill else None, a))
    case OnPlus => spec.(sign := Plus)
    case OnMinus => spec.(sign := Minus)
    case OnSpace => spec.(sign := Space)
    case OnHash => spec.(hash := true)
    case OnZero => spec.(zero := true)
    case OnWidth(n) => spec.(width := Static(n))
    case OnDynamicWidth(id) => spec.(width := Dynamic(id))
    case OnPrecision(n) => spec.(precision := Static(n))
    case OnDynamicPrecision(id) => spec.(precision := Dynamic(id))
    case EndPrecision => spec
    case OnType(c) => spec.(kind := Some(c))
  }

  function ToldAll(spec: Spec, calls: seq<Callback>): Spec
    decreases |calls|
  {
    if calls == [] then spec else ToldAll(Told(spec, calls[0]), calls[1..])
  }

  lemma {:induction false} ToldInParts(spec: Spec, a: seq<Callback>, b: seq<Callback>)
    ensures ToldAll(spec, a + b) == ToldAll(ToldAll(spec, a), b)
    decreases |a|
  {
    if a == [] {
      assert a + b == b;
    } else {
      assert (a + b)[1..] == a[1..] + b;
      ToldInParts(Told(spec, a[0]), a[1..], b);
    }
  }

  lemma ToldUpToTwo(spec: Spec, calls: seq<Callback>)
    requires |calls| <= 2
    ensures ToldAll(spec, calls) == if |calls| == 0 then spec else if |calls| == 1 then Told(spec, calls[0])
      else Told(Told(spec, calls[0]), calls[1])
  {
    if |calls| == 1 {
      assert calls[1..] == [];
    } else if |calls| == 2 {
      assert calls[1..][0] == calls[1] && calls[1..][1..] == [];
      var first := Told(spec, calls[0]);
      assert ToldAll(first, calls[1..]) == ToldAll(Told(first, calls[1]), calls[1..][1..]);
    }
  }

  /** A handler recovers the specification from its callbacks. */
  lemma CallbacksDetermineSpec(spec: Spec)
    ensures ToldAll(EMPTY, Callbacks(spec)) == spec
  {
    hide ToldAll, FlagCallbacks;
    var a, b := AlignCallbacks(spec.align), FlagCallbacks(spec.sign, spec.hash, spec.zero);
    var w, p, k := WidthCallbacks(spec.width), PrecisionCallbacks(spec.precision), TypeCallbacks(spec.kind);
    ToldInParts(EMPTY, a + b + w + p, k);
    ToldInParts(EMPTY, a + b + w, p);
    ToldInParts(EMPTY, a + b, w);
    ToldInParts(EMPTY, a, b);
    ToldUpToTwo(EMPTY, a);
    var s1 := EMPTY.(align := spec.align);
    ToldFlags(s1, spec.sign, spec.hash, spec.zero);
    var s2 := s1.(sign := spec.sign, hash := spec.hash, zero := spec.zero);
    ToldUpToTwo(s2, w);
    var s3 := s2.(width := spec.width);
    ToldUpToTwo(s3, p);
    ToldUpToTwo(s3.(precision := spec.precision), k);
  }

  lemma ToldFlags(s: Spec, sign: Sign, hash: bool, zero: bool)
    requires s.sign == NoSign && !s.hash && !s.zero
    ensures ToldAll(s, FlagCallbacks(sign, hash, zero)) == s.(sign := sign, hash := hash, zero := zero)
  {
    hide ToldAll;
    var a, b, c := SignCallbacks(sign), if hash then [OnHash] else [], if zero then [OnZero] else [];
    ToldInParts(s, a + b, c);
    ToldInParts(s, a, b);
    ToldUpToTwo(s, a);
    ToldUpToTwo(s.(sign := sign), b);
    ToldUpToTwo(s.(sign := sign, hash := hash), c);
  }
}
