/**
  `pattern_formatter`: a pattern is compiled once into a list of formatters; a
  broken-down time is cached per second, and the formatter of "%+" caches the
  text of its date as well.  The reference reads the pattern from left to right
  and asks the clock every time.
 */
module PatternFormatting {
  import opened LogTime
  import Decimal

  datatype Option<+T> = None | Some(value: T)

  /** The flags that print a part of the message or of its time. */
  datatype Field =
    | LoggerName | LevelName | ShortLevel | ThreadId | Text
    | DayName | FullDayName | MonthName | FullMonthName | DateTime
    | ShortYear | Year | ShortDate | MonthNumber | Day
    | Hour | Hour12 | Minute | Second | Millis | Micros | Nanos | Epoch
    | AmPm | Clock12 | HourMinute | Clock24 | Zone | Pid | MessageId

  datatype Piece =
    | Part(field: Field)
    | FullInfo
    | ColorStart
    | ColorStop
    | Character(ch: char)
    | Aggregate(text: string)

  /** The text so far and the range to colour. */
  datatype Output = Output(text: string, start: nat, stop: nat)

  const EMPTY := Output("", 0, 0)

  function Add(out: Output, text: string): Output {
    out.(text := out.text + text)
  }

  // ----- what the flags print -----

  function FieldOf(flag: char): Option<Field> {
    match flag
    case 'n' => Some(LoggerName)
    case 'l' => Some(LevelName)
    case 'L' => Some(ShortLevel)
    case 't' => Some(ThreadId)
    case 'v' => Some(Text)
    case 'a' => Some(DayName)
    case 'A' => Some(FullDayName)
    case 'b' => Some(MonthName)
    case 'h' => Some(MonthName)
    case 'B' => Some(FullMonthName)
    case 'c' => Some(DateTime)
    case 'C' => Some(ShortYear)
    case 'Y' => Some(Year)
    case 'D' => Some(ShortDate)
    case 'x' => Some(ShortDate)
    case 'm' => Some(MonthNumber)
    case 'd' => Some(Day)
    case 'H' => Some(Hour)
    case 'I' => Some(Hour12)
    case 'M' => Some(Minute)
    case 'S' => Some(Second)
    case 'e' => Some(Millis)
    case 'f' => Some(Micros)
    case 'F' => Some(Nanos)
    case 'E' => Some(Epoch)
    case 'p' => Some(AmPm)
    case 'r' => Some(Clock12)
    case 'R' => Some(HourMinute)
    case 'T' => Some(Clock24)
    case 'X' => Some(Clock24)
    case 'z' => Some(Zone)
    case 'P' => Some(Pid)
    case 'i' => Some(MessageId)
    case _ => None
  }

  /** handle_flag_: an unknown flag stands for itself, with its percent sign. */
  function PiecesOf(flag: char): (pieces: seq<Piece>)
    ensures pieces != []
  {
    match flag
    case '+' => [FullInfo]
    case '^' => [ColorStart]
    case '$' => [ColorStop]
    case _ =>
      match FieldOf(flag)
      case Some(field) => [Part(field)]
      case None => [Character('%'), Character(flag)]
  }

  function To12h(hour: int): int {
    if hour > 12 then hour - 12 else hour
  }

  function AmOrPm(tm: Tm): string {
    if tm.hour >= 12 then "PM" else "AM"
  }

  function ZoneText(gmtoff: int): string {
    var total := Quotient(gmtoff, 60);
    var minutes := if total < 0 then -total else total;
    (if total < 0 then "-" else "+") + Pad2(minutes / 60) + ":" + Pad2(minutes % 60)
  }

  function Print(field: Field, m: Message, tm: Tm, pid: int): string {
    match field
    case LoggerName => m.loggerName
    case LevelName => LEVEL_NAMES[m.level]
    case ShortLevel => SHORT_LEVEL_NAMES[m.level]
    case ThreadId => Pad6(m.threadId)
    case Text => m.raw
    case DayName => DAYS[tm.wday]
    case FullDayName => FULL_DAYS[tm.wday]
    case MonthName => MONTHS[tm.mon]
    case FullMonthName => FULL_MONTHS[tm.mon]
    case DateTime =>
      DAYS[tm.wday] + " " + MONTHS[tm.mon] + " " + AppendInt(tm.mday) + " "
      + Pad2(tm.hour) + ":" + Pad2(tm.min) + ":" + Pad2(tm.sec) + " " + AppendInt(tm.year + 1900)
    case ShortYear => Pad2(Remainder(tm.year, 100))
    case Year => AppendInt(tm.year + 1900)
    case ShortDate => Pad2(tm.mon + 1) + "/" + Pad2(tm.mday) + "/" + Pad2(Remainder(tm.year, 100))
    case MonthNumber => Pad2(tm.mon + 1)
    case Day => Pad2(tm.mday)
    case Hour => Pad2(tm.hour)
    case Hour12 => Pad2(To12h(tm.hour))
    case Minute => Pad2(tm.min)
    case Second => Pad2(tm.sec)
    case Millis => Pad3(Fraction(m, 1_000_000))
    case Micros => Pad6(Fraction(m, 1000) % TWO_64)
    case Nanos => ZeroFilled(Fraction(m, 1), 9)
    case Epoch => AppendInt(Seconds(m))
    case AmPm => AmOrPm(tm)
    case Clock12 => Pad2(To12h(tm.hour)) + ":" + Pad2(tm.min) + ":" + Pad2(tm.sec) + " " + AmOrPm(tm)
    case HourMinute => Pad2(tm.hour) + ":" + Pad2(tm.min)
    case Clock24 => Pad2(tm.hour) + ":" + Pad2(tm.min) + ":" + Pad2(tm.sec)
    case Zone => ZoneText(tm.gmtoff)
    case Pid => AppendInt(pid)
    case MessageId => Pad6(m.id)
  }

  /** The part of "%+" that changes once a second. */
  function DateText(tm: Tm): (s: string)
    ensures s != []
  {
    "[" + AppendInt(tm.year + 1900) + "-" + Pad2(tm.mon + 1) + "-" + Pad2(tm.mday)
    + " " + Pad2(tm.hour) + ":" + Pad2(tm.min) + ":" + Pad2(tm.sec) + "."
  }

  /** "%+" once the date is there: the level name is what gets coloured. */
  function AfterDate(m: Message, out: Output): Output {
    var named := Add(Add(Add(out, Pad3(Fraction(m, 1_000_000))), "] [" + m.loggerName), "] [");
    var level := Add(named.(start := |named.text|), LEVEL_NAMES[m.level]);
    Add(Add(level.(stop := |level.text|), "] "), m.raw)
  }

  /** What a piece prints when nothing is cached. */
  function Show(piece: Piece, m: Message, tm: Tm, pid: int, out: Output): Output {
    match piece
    case Part(field) => Add(out, Print(field, m, tm, pid))
    case FullInfo => AfterDate(m, Add(out, DateText(tm)))
    case ColorStart => out.(start := |out.text|)
    case ColorStop => out.(stop := |out.text|)
    case Character(ch) => Add(out, [ch])
    case Aggregate(text) => Add(out, text)
  }

  function ShowAll(pieces: seq<Piece>, m: Message, tm: Tm, pid: int, out: Output): Output {
    if pieces == [] then out else ShowAll(pieces[1..], m, tm, pid, Show(pieces[0], m, tm, pid, out))
  }

  // ----- the direct reading of a pattern -----

  predicate Known(flag: char) {
    flag == '+' || flag == '^' || flag == '$' || FieldOf(flag).Some?
  }

  function ReadFlag(flag: char, m: Message, tm: Tm, pid: int, out: Output): Output {
    if Known(flag) then Show(PiecesOf(flag)[0], m, tm, pid, out) else Add(out, ['%', flag])
  }

  /** From left to right: a flag prints its part, anything else itself, a percent sign at the end nothing. */
  function Read(pattern: string, m: Message, tm: Tm, pid: int, out: Output): Output {
    if pattern == "" then out
    else if pattern[0] != '%' then Read(pattern[1..], m, tm, pid, Add(out, [pattern[0]]))
    else if |pattern| == 1 then out
    else Read(pattern[2..], m, tm, pid, ReadFlag(pattern[1], m, tm, pid, out))
  }

  // ----- compilation -----

  /** The number of characters before the first percent sign. */
  function Plain(pattern: string): (n: nat)
    ensures n <= |pattern| && (n < |pattern| ==> pattern[n] == '%')
    ensures forall k :: 0 <= k < n ==> pattern[k] != '%'
  {
    if pattern == "" || pattern[0] == '%' then 0 else 1 + Plain(pattern[1..])
  }

  /** The list compile_pattern_ builds: maximal runs of plain characters, and the pieces of every flag. */
  function Compiled(pattern: string): seq<Piece>
    decreases |pattern|
  {
    if pattern == "" then []
    else if pattern[0] != '%' then [Aggregate(pattern[..Plain(pattern)])] + Compiled(pattern[Plain(pattern)..])
    else if |pattern| == 1 then []
    else PiecesOf(pattern[1]) + Compiled(pattern[2..])
  }

  lemma AddTwice(out: Output, a: string, b: string)
    ensures Add(Add(out, a), b) == Add(out, a + b)
  {
    assert out.text + a + b == out.text + (a + b);
  }

  lemma AddNothing(out: Output)
    ensures Add(out, "") == out
  {
    assert out.text + "" == out.text;
  }

  lemma {:induction false} ShowJoined(first: seq<Piece>, second: seq<Piece>, m: Message, tm: Tm, pid: int, out: Output)
    ensures ShowAll(first + second, m, tm, pid, out) == ShowAll(second, m, tm, pid, ShowAll(first, m, tm, pid, out))
  {
    if first == [] {
      assert first + second == second;
    } else {
      assert (first + second)[1..] == first[1..] + second;
      ShowJoined(first[1..], second, m, tm, pid, Show(first[0], m, tm, pid, out));
    }
    hide Show;
  }

  /** Plain characters one by one, or all at once. */
  lemma {:induction false} ReadPlain(text: string, rest: string, m: Message, tm: Tm, pid: int, out: Output)
    requires forall k :: 0 <= k < |text| ==> text[k] != '%'
    ensures Read(text + rest, m, tm, pid, out) == Read(rest, m, tm, pid, Add(out, text))
  {
    if text == "" {
      assert text + rest == rest;
      AddNothing(out);
    } else {
      assert (text + rest)[1..] == text[1..] + rest;
      ReadPlain(text[1..], rest, m, tm, pid, Add(out, [text[0]]));
      AddTwice(out, [text[0]], text[1..]);
      assert [text[0]] + text[1..] == text;
    }
    hide Add, ReadFlag;
  }

  lemma FlagPieces(flag: char, m: Message, tm: Tm, pid: int, out: Output)
    ensures ShowAll(PiecesOf(flag), m, tm, pid, out) == ReadFlag(flag, m, tm, pid, out)
  {
    var pieces := PiecesOf(flag);
    if Known(flag) {
      assert |pieces| == 1;
      assert ShowAll(pieces[1..], m, tm, pid, Show(pieces[0], m, tm, pid, out)) == Show(pieces[0], m, tm, pid, out);
    } else {
      var after := Add(out, "%");
      assert pieces == [Character('%'), Character(flag)];
      assert pieces[1..] == [Character(flag)] && pieces[1..][1..] == [];
      assert ShowAll(pieces[1..], m, tm, pid, after) == ShowAll([], m, tm, pid, Add(after, [flag]));
      AddTwice(out, "%", [flag]);
      assert "%" + [flag] == ['%', flag];
    }
    hide FieldOf, Print, Add;
  }

  /** Compilation preserves meaning: the compiled list prints what the direct reading prints. */
  lemma {:induction false} CompilePreserves(pattern: string, m: Message, tm: Tm, pid: int, out: Output)
    ensures ShowAll(Compiled(pattern), m, tm, pid, out) == Read(pattern, m, tm, pid, out)
    decreases |pattern|
  {
    if pattern == "" {
    } else if pattern[0] != '%' {
      var n := Plain(pattern);
      assert pattern == pattern[..n] + pattern[n..];
      ReadPlain(pattern[..n], pattern[n..], m, tm, pid, out);
      CompilePreserves(pattern[n..], m, tm, pid, Add(out, pattern[..n]));
      assert ([Aggregate(pattern[..n])] + Compiled(pattern[n..]))[1..] == Compiled(pattern[n..]);
    } else if |pattern| > 1 {
      ShowJoined(PiecesOf(pattern[1]), Compiled(pattern[2..]), m, tm, pid, out);
      FlagPieces(pattern[1], m, tm, pid, out);
      CompilePreserves(pattern[2..], m, tm, pid, ReadFlag(pattern[1], m, tm, pid, out));
    }
    hide ReadFlag, PiecesOf, Add, Print, AfterDate, DateText;
  }

  /** A pattern that does not stop in the middle of a flag. */
  predicate Complete(pattern: string) {
    pattern == "" || (if pattern[0] != '%' then Complete(pattern[1..]) else |pattern| > 1 && Complete(pattern[2..]))
  }

  /** Reading is compositional between flags; in particular a percent sign after a complete pattern is dropped. */
  lemma {:induction false} ReadJoined(first: string, second: string, m: Message, tm: Tm, pid: int, out: Output)
    requires Complete(first)
    ensures Read(first + second, m, tm, pid, out) == Read(second, m, tm, pid, Read(first, m, tm, pid, out))
    ensures Read(first + "%", m, tm, pid, out) == Read(first, m, tm, pid, out)
    decreases |first|
  {
    if first == "" {
      assert first + second == second && first + "%" == "%";
    } else if first[0] != '%' {
      assert (first + second)[1..] == first[1..] + second && (first + "%")[1..] == first[1..] + "%";
      ReadJoined(first[1..], second, m, tm, pid, Add(out, [first[0]]));
    } else {
      assert (first + second)[2..] == first[2..] + second && (first + "%")[2..] == first[2..] + "%";
      ReadJoined(first[2..], second, m, tm, pid, ReadFlag(first[1], m, tm, pid, out));
    }
    hide ReadFlag, Add;
  }

  /** A complete pattern in which no flag is known. */
  predicate NoKnownFlag(pattern: string) {
    pattern == "" ||
    (if pattern[0] != '%' then NoKnownFlag(pattern[1..])
     else |pattern| > 1 && !Known(pattern[1]) && NoKnownFlag(pattern[2..]))
  }

  /** Unknown flags are kept, so such a pattern prints itself; a doubled percent sign is one of them. */
  lemma {:induction false} UnknownKept(pattern: string, m: Message, tm: Tm, pid: int, out: Output)
    requires NoKnownFlag(pattern)
    ensures Read(pattern, m, tm, pid, out) == Add(out, pattern)
    decreases |pattern|
  {
    if pattern == "" {
      AddNothing(out);
    } else {
      var n := if pattern[0] != '%' then 1 else 2;
      UnknownKept(pattern[n..], m, tm, pid, Add(out, pattern[..n]));
      AddTwice(out, pattern[..n], pattern[n..]);
      assert pattern[..n] + pattern[n..] == pattern;
      assert pattern[..n] == if n == 1 then [pattern[0]] else ['%', pattern[1]];
    }
    hide Add, Known, Show;
  }

  // ----- shorthands -----

  lemma ReadOne(text: string, flag: char, rest: string, m: Message, tm: Tm, pid: int, out: Output)
    requires forall k :: 0 <= k < |text| ==> text[k] != '%'
    ensures Read(text + ['%', flag] + rest, m, tm, pid, out)
         == Read(rest, m, tm, pid, ReadFlag(flag, m, tm, pid, Add(out, text)))
  {
    assert text + ['%', flag] + rest == text + (['%', flag] + rest);
    ReadPlain(text, ['%', flag] + rest, m, tm, pid, out);
    assert (['%', flag] + rest)[2..] == rest;
    hide ReadFlag, Add;
  }

  /** A flag with the text before it. */
  function Step(text: string, flag: char): string {
    text + ['%', flag]
  }

  lemma ReadStep(text: string, flag: char, rest: string, m: Message, tm: Tm, pid: int, out: Output)
    requires (forall k :: 0 <= k < |text| ==> text[k] != '%') && Simple(flag)
    ensures Read(Step(text, flag) + rest, m, tm, pid, out)
         == Read(rest, m, tm, pid, Add(Add(out, text), Print(FieldOf(flag).value, m, tm, pid)))
  {
    ReadOne(text, flag, rest, m, tm, pid, out);
    hide FieldOf, Add, Read, Print;
  }

  /** Flags that print a part of the message and nothing else. */
  predicate Simple(flag: char) {
    flag != '+' && flag != '^' && flag != '$' && FieldOf(flag).Some?
  }

  /** "%R" is "%H:%M". */
  lemma HourMinuteIs(m: Message, tm: Tm, pid: int, out: Output)
    ensures ReadFlag('R', m, tm, pid, out) == Read("%H:%M", m, tm, pid, out)
  {
    var text := Pad2(tm.hour) + ":" + Pad2(tm.min);
    TimeFields(m, tm, pid);
    ShorthandFields(m, tm, pid);
    TwoSteps('H', ':', 'M');
    ReadSimple('R', m, tm, pid, out);
    hide *;
    Pair("", 'H', ":", 'M', "", m, tm, pid, out);
    AddNothing(out);
    ReadNothing(m, tm, pid, Add(out, text));
  }

  lemma ReadSimple(flag: char, m: Message, tm: Tm, pid: int, out: Output)
    requires Simple(flag)
    ensures ReadFlag(flag, m, tm, pid, out) == Add(out, Print(FieldOf(flag).value, m, tm, pid))
  {
    hide FieldOf, Print, Add;
  }

  lemma Pair(a: string, f: char, b: string, g: char, rest: string, m: Message, tm: Tm, pid: int, out: Output)
    requires (forall k :: 0 <= k < |a| ==> a[k] != '%') && Simple(f)
    requires (forall k :: 0 <= k < |b| ==> b[k] != '%') && Simple(g)
    ensures Read(Step(a, f) + (Step(b, g) + rest), m, tm, pid, out)
         == Read(rest, m, tm, pid,
              Add(Add(out, a), Print(FieldOf(f).value, m, tm, pid) + b + Print(FieldOf(g).value, m, tm, pid)))
  {
    var x, y := Print(FieldOf(f).value, m, tm, pid), Print(FieldOf(g).value, m, tm, pid);
    ReadStep(a, f, Step(b, g) + rest, m, tm, pid, out);
    ReadStep(b, g, rest, m, tm, pid, Add(Add(out, a), x));
    AddTwice(Add(out, a), x, b);
    AddTwice(Add(out, a), x + b, y);
    hide *;
  }

  lemma ReadNothing(m: Message, tm: Tm, pid: int, out: Output)
    ensures Read("", m, tm, pid, out) == out
  {
  }

  lemma TwoSteps(f: char, a: char, g: char)
    ensures ['%', f, a, '%', g] == Step("", f) + (Step([a], g) + "")
  {
  }

  lemma ThreeSteps(f: char, a: char, g: char, b: char, h: char)
    ensures ['%', f, a, '%', g, b, '%', h] == Step("", f) + (Step([a], g) + (Step([b], h) + ""))
  {
  }

  lemma Triple(f: char, a: char, g: char, b: char, h: char, m: Message, tm: Tm, pid: int, out: Output)
    requires Simple(f) && Simple(g) && Simple(h) && a != '%' && b != '%'
    ensures Read(['%', f, a, '%', g, b, '%', h], m, tm, pid, out)
         == Add(out, Print(FieldOf(f).value, m, tm, pid) + [a] + Print(FieldOf(g).value, m, tm, pid) + [b]
                     + Print(FieldOf(h).value, m, tm, pid))
  {
    var last := Step([b], h) + "";
    var z := Print(FieldOf(h).value, m, tm, pid);
    var xy := Print(FieldOf(f).value, m, tm, pid) + [a] + Print(FieldOf(g).value, m, tm, pid);
    ThreeSteps(f, a, g, b, h);
    hide *;
    Pair("", f, [a], g, last, m, tm, pid, out);
    AddNothing(out);
    ReadStep([b], h, "", m, tm, pid, Add(out, xy));
    AddTwice(out, xy, [b]);
    AddTwice(out, xy + [b], z);
    ReadNothing(m, tm, pid, Add(out, xy + [b] + z));
  }

  /** "%T" is "%H:%M:%S". */
  lemma Clock24Is(m: Message, tm: Tm, pid: int, out: Output)
    ensures ReadFlag('T', m, tm, pid, out) == Read("%H:%M:%S", m, tm, pid, out)
  {
    TimeFields(m, tm, pid);
    ShorthandFields(m, tm, pid);
    hide *;
    ReadSimple('T', m, tm, pid, out);
    Triple('H', ':', 'M', ':', 'S', m, tm, pid, out);
  }

  /** "%D" is "%m/%d/%C". */
  lemma ShortDateIs(m: Message, tm: Tm, pid: int, out: Output)
    ensures ReadFlag('D', m, tm, pid, out) == Read("%m/%d/%C", m, tm, pid, out)
  {
    DateFields(m, tm, pid);
    ShorthandFields(m, tm, pid);
    hide *;
    ReadSimple('D', m, tm, pid, out);
    Triple('m', '/', 'd', '/', 'C', m, tm, pid, out);
  }

  /** The pattern that "%+" stands for, with the level name coloured: [%Y-%m-%d %H:%M:%S.%e] [%n] [%^%l%$] %v */
  const FULL_PATTERN :=
    Step("[", 'Y') + (Step("-", 'm') + (Step("-", 'd') + (Step(" ", 'H') + (Step(":", 'M')
    + (Step(":", 'S') + (Step(".", 'e') + MESSAGE_PATTERN))))))

  const MESSAGE_PATTERN :=
    Step("] [", 'n') + (Step("] [", '^') + (Step("", 'l') + (Step("", '$') + (Step("] ", 'v') + ""))))

  lemma FullPatternText()
    ensures FULL_PATTERN == "[%Y-%m-%d %H:%M:%S.%e] [%n] [%^%l%$] %v"
  {
  }

  lemma ReadDate(m: Message, tm: Tm, pid: int, out: Output)
    ensures Read(FULL_PATTERN, m, tm, pid, out)
         == Read(MESSAGE_PATTERN, m, tm, pid, Add(Add(out, DateText(tm)), Pad3(Fraction(m, 1_000_000))))
  {
    var y, mo, d := AppendInt(tm.year + 1900), Pad2(tm.mon + 1), Pad2(tm.mday);
    var h, mi, sec := Pad2(tm.hour), Pad2(tm.min), Pad2(tm.sec);
    var after7 := Step(".", 'e') + MESSAGE_PATTERN;
    var after5 := Step(":", 'M') + (Step(":", 'S') + after7);
    var after3 := Step("-", 'd') + (Step(" ", 'H') + after5);
    assert FULL_PATTERN == Step("[", 'Y') + (Step("-", 'm') + after3);
    DateFields(m, tm, pid);
    TimeFields(m, tm, pid);
    DateTextIs(tm);
    hide *;
    Pair("[", 'Y', "-", 'm', after3, m, tm, pid, out);
    var out2 := Add(Add(out, "["), y + "-" + mo);
    Pair("-", 'd', " ", 'H', after5, m, tm, pid, out2);
    var out4 := Add(Add(out2, "-"), d + " " + h);
    Pair(":", 'M', ":", 'S', after7, m, tm, pid, out4);
    var out6 := Add(Add(out4, ":"), mi + ":" + sec);
    ReadStep(".", 'e', MESSAGE_PATTERN, m, tm, pid, out6);
    DateAdded(y, mo, d, h, mi, sec, out);
  }

  lemma DateFields(m: Message, tm: Tm, pid: int)
    ensures Simple('Y') && Print(FieldOf('Y').value, m, tm, pid) == AppendInt(tm.year + 1900)
    ensures Simple('m') && Print(FieldOf('m').value, m, tm, pid) == Pad2(tm.mon + 1)
    ensures Simple('d') && Print(FieldOf('d').value, m, tm, pid) == Pad2(tm.mday)
  {
    hide Pad2, AppendInt;
  }

  lemma TimeFields(m: Message, tm: Tm, pid: int)
    ensures Simple('H') && Print(FieldOf('H').value, m, tm, pid) == Pad2(tm.hour)
    ensures Simple('M') && Print(FieldOf('M').value, m, tm, pid) == Pad2(tm.min)
    ensures Simple('S') && Print(FieldOf('S').value, m, tm, pid) == Pad2(tm.sec)
    ensures Simple('e') && Print(FieldOf('e').value, m, tm, pid) == Pad3(Fraction(m, 1_000_000))
  {
    hide Pad2, Pad3, Fraction;
  }

  lemma ShorthandFields(m: Message, tm: Tm, pid: int)
    ensures Simple('R') && Print(FieldOf('R').value, m, tm, pid) == Pad2(tm.hour) + ":" + Pad2(tm.min)
    ensures Simple('T')
    ensures Print(FieldOf('T').value, m, tm, pid) == Pad2(tm.hour) + ":" + Pad2(tm.min) + ":" + Pad2(tm.sec)
    ensures Simple('C') && Print(FieldOf('C').value, m, tm, pid) == Pad2(Remainder(tm.year, 100))
    ensures Simple('D')
    ensures Print(FieldOf('D').value, m, tm, pid)
         == Pad2(tm.mon + 1) + "/" + Pad2(tm.mday) + "/" + Pad2(Remainder(tm.year, 100))
  {
    hide Pad2, Remainder;
  }

  lemma DateTextIs(tm: Tm)
    ensures DateText(tm) ==
      "[" + AppendInt(tm.year + 1900) + "-" + Pad2(tm.mon + 1) + "-" + Pad2(tm.mday)
      + " " + Pad2(tm.hour) + ":" + Pad2(tm.min) + ":" + Pad2(tm.sec) + "."
  {
    hide AppendInt, Pad2;
  }

  lemma DateAdded(y: string, mo: string, d: string, h: string, mi: string, sec: string, out: Output)
    ensures
      var out2 := Add(Add(out, "["), y + "-" + mo);
      var out4 := Add(Add(out2, "-"), d + " " + h);
      Add(Add(Add(out4, ":"), mi + ":" + sec), ".")
      == Add(out, "[" + y + "-" + mo + "-" + d + " " + h + ":" + mi + ":" + sec + ".")
  {
    ThreeMore(out, "[", y, "-", mo);
    var t2 := "[" + y + "-" + mo;
    AddTwice(out, t2, "-");
    ThreeMore(out, t2 + "-", d, " ", h);
    var t4 := t2 + "-" + d + " " + h;
    AddTwice(out, t4, ":");
    ThreeMore(out, t4 + ":", mi, ":", sec);
    AddTwice(out, t4 + ":" + mi + ":" + sec, ".");
    hide *;
  }

  lemma ThreeMore(out: Output, t: string, a: string, b: string, c: string)
    ensures Add(Add(out, t), a + b + c) == Add(out, t + a + b + c)
  {
    AddTwice(out, t, a + b + c);
    assert t + (a + b + c) == t + a + b + c;
  }

  lemma ReadMessage(m: Message, tm: Tm, pid: int, out: Output)
    ensures Read(MESSAGE_PATTERN, m, tm, pid, Add(out, Pad3(Fraction(m, 1_000_000)))) == AfterDate(m, out)
  {
    var out1 := Add(out, Pad3(Fraction(m, 1_000_000)));
    var after4 := Step("] ", 'v') + "";
    var after3 := Step("", '$') + after4;
    var after2 := Step("", 'l') + after3;
    var after1 := Step("] [", '^') + after2;
    ReadStep("] [", 'n', after1, m, tm, pid, out1);
    AddTwice(out1, "] [", m.loggerName);
    var out2 := Add(out1, "] [" + m.loggerName);
    ReadOne("] [", '^', after2, m, tm, pid, out2);
    var out3 := Add(out2, "] [");
    var out4 := out3.(start := |out3.text|);
    ReadStep("", 'l', after3, m, tm, pid, out4);
    AddNothing(out4);
    var out5 := Add(out4, LEVEL_NAMES[m.level]);
    ReadOne("", '$', after4, m, tm, pid, out5);
    AddNothing(out5);
    var out6 := out5.(stop := |out5.text|);
    ReadStep("] ", 'v', "", m, tm, pid, out6);
    hide Read, Add;
  }

  /** "%+" prints what the pattern it is documented to stand for prints, colours included. */
  lemma FullIsItsPattern(m: Message, tm: Tm, pid: int, out: Output)
    ensures ReadFlag('+', m, tm, pid, out) == Read(FULL_PATTERN, m, tm, pid, out)
  {
    ReadDate(m, tm, pid, out);
    ReadMessage(m, tm, pid, Add(out, DateText(tm)));
    hide Read, Add, DateText, AfterDate;
  }

  /** What "%+" colours is the level name. */
  lemma FullColoursLevel(m: Message, tm: Tm, pid: int, out: Output)
    ensures var r := ReadFlag('+', m, tm, pid, out);
      r.start <= r.stop <= |r.text| && r.text[r.start..r.stop] == LEVEL_NAMES[m.level]
  {
    var named := Add(Add(Add(Add(out, DateText(tm)), Pad3(Fraction(m, 1_000_000))), "] [" + m.loggerName), "] [");
    Coloured(named.text, LEVEL_NAMES[m.level], m.raw);
    hide DateText, Pad3;
  }

  lemma Coloured(before: string, name: string, raw: string)
    ensures (before + name + "] " + raw)[|before|..|before| + |name|] == name
  {
  }

  // ----- literal readings -----

  /** From the epoch on, %F, %f and %e print the nine, six and three leading digits of the time below the second. */
  lemma FractionDigits(m: Message, tm: Tm, pid: int)
    requires m.time >= 0
    ensures var digits := Decimal.Padded(BelowSecond(m), 9);
      && Print(Nanos, m, tm, pid) == digits
      && Print(Micros, m, tm, pid) == digits[..6]
      && Print(Millis, m, tm, pid) == digits[..3]
  {
    hide *;
    FractionsUsed(m);
    LeadingDigits(BelowSecond(m));
    FractionFields(m, tm, pid);
  }

  lemma FractionFields(m: Message, tm: Tm, pid: int)
    ensures Print(Nanos, m, tm, pid) == ZeroFilled(Fraction(m, 1), 9)
    ensures 0 <= Fraction(m, 1000) < 1_000_000 ==> Print(Micros, m, tm, pid) == Pad6(Fraction(m, 1000))
    ensures Print(Millis, m, tm, pid) == Pad3(Fraction(m, 1_000_000))
  {
    hide Pad3, Pad6, ZeroFilled, Fraction;
  }

  /** The flags are exactly these characters. */
  lemma FlagAlphabet(c: char)
    ensures Known(c) <==> c in "nlLtvaAbhBcC" || c in "YDxmdHIMSefF" || c in "EprRTXzPi+^$"
  {
  }

  /** The example the literal readings below are about: Thu Aug 23 15:35:46 2014, half past three west of Greenwich. */
  const SAMPLE_TM := Tm(46, 35, 15, 23, 7, 114, 4, -12600)
  const SAMPLE := Message("net", 2, 5_123_456_789, 42, 7, "hi")

  /** The text a known simple flag prints for the example. */
  function Sample(flag: char): string
    requires Simple(flag)
  {
    Print(FieldOf(flag).value, SAMPLE, SAMPLE_TM, 321)
  }

  lemma SampleNames()
    ensures Simple('n') && Sample('n') == "net"
    ensures Simple('l') && Sample('l') == "info"
    ensures Simple('L') && Sample('L') == "I"
    ensures Simple('v') && Sample('v') == "hi"
    ensures Simple('p') && Sample('p') == "PM"
  {
  }

  lemma SampleDays()
    ensures Simple('a') && Sample('a') == "Thu"
    ensures Simple('A') && Sample('A') == "Thursday"
    ensures Simple('b') && Sample('b') == "Aug"
    ensures Simple('h') && Sample('h') == "Aug"
    ensures Simple('B') && Sample('B') == "August"
  {
  }

  lemma SampleNumbers()
    ensures Simple('t') && Sample('t') == "000042"
    ensures Simple('i') && Sample('i') == "000007"
  {
  }

  lemma Decimals()
    ensures AppendInt(2014) == "2014" && AppendInt(321) == "321" && AppendInt(23) == "23"
  {
    assert Decimal.Digits(20) == "20" && Decimal.Digits(201) == "201" && Decimal.Digits(32) == "32";
  }

  lemma TwoDigitTexts()
    ensures Pad2(8) == "08" && Pad2(23) == "23" && Pad2(15) == "15" && Pad2(3) == "03" && Pad2(35) == "35"
    ensures Pad2(46) == "46" && Pad2(30) == "30" && Pad2(14) == "14"
  {
  }

  lemma SampleDate()
    ensures Simple('C') && Sample('C') == "14"
    ensures Simple('m') && Sample('m') == "08"
    ensures Simple('d') && Sample('d') == "23"
    ensures Simple('Y') && Sample('Y') == "2014"
  {
    TwoDigitTexts();
    Decimals();
    hide Pad2, AppendInt;
  }

  lemma SampleClock()
    ensures Simple('H') && Sample('H') == "15"
    ensures Simple('I') && Sample('I') == "03"
    ensures Simple('M') && Sample('M') == "35"
    ensures Simple('S') && Sample('S') == "46"
  {
    TwoDigitTexts();
    hide Pad2;
  }

  lemma SampleIntegers()
    ensures Simple('P') && Sample('P') == "321"
    ensures Simple('E') && Sample('E') == "5"
  {
    Decimals();
    assert AppendInt(5) == "5";
    hide AppendInt;
  }

  lemma SampleShortTimes()
    ensures Simple('r') && Sample('r') == "03:35:46 PM"
    ensures Simple('R') && Sample('R') == "15:35"
  {
    TwoDigitTexts();
    hide Pad2;
  }

  lemma SampleTimes()
    ensures Simple('T') && Sample('T') == "15:35:46"
    ensures Simple('X') && Sample('X') == "15:35:46"
  {
    TwoDigitTexts();
    hide Pad2;
  }

  lemma SampleDates()
    ensures Simple('D') && Sample('D') == "08/23/14"
    ensures Simple('x') && Sample('x') == "08/23/14"
  {
    TwoDigitTexts();
    hide Pad2;
  }

  /** The example of the source's comment on %c. */
  lemma SampleDateTime()
    ensures Simple('c') && Sample('c') == "Thu Aug 23 15:35:46 2014"
  {
    TwoDigitTexts();
    Decimals();
    hide Pad2, AppendInt;
  }

  lemma SampleZone()
    ensures Simple('z') && Sample('z') == "-03:30"
  {
    TwoDigitTexts();
    assert ZoneText(-12600) == "-" + Pad2(3) + ":" + Pad2(30);
    hide Pad2;
  }

  /** The documented range of a 12-hour clock, 1 to 12, is met except in the hour after midnight, which prints 00. */
  lemma TwelveHours(tm: Tm)
    requires 0 <= tm.hour < 24
    ensures 1 <= To12h(tm.hour) <= 12 <==> tm.hour != 0
    ensures To12h(tm.hour) == tm.hour || To12h(tm.hour) == tm.hour - 12
    ensures AmOrPm(tm) == "PM" <==> 12 <= tm.hour
    ensures Pad2(To12h(0)) == "00"
  {
  }

  // ----- the formatter -----

  /** What a formatter of "%+" keeps: `cache_timestamp_` and `cached_datetime_`. */
  datatype Cache = Cache(timestamp: int, datetime: string)

  const NO_CACHE := Cache(0, "")

  /** A cached date is either not there yet or the one of the time last used. */
  ghost predicate Current(cache: Cache, secs: int, tm: Tm) {
    cache.datetime == "" || cache == Cache(secs, DateText(tm))
  }

  class PatternFormatter {
    const pattern: string
    const eol: string
    const pid: int
    const clock: int -> Tm            // localtime or gmtime, by the second
    var cachedTm: Tm
    var lastLogSecs: int
    var formatters: seq<Piece>
    var caches: seq<Cache>            // of formatters[k], where it is a "%+"

    ghost predicate Valid()
      reads this
    {
      && formatters == Compiled(pattern) && |caches| == |formatters|
      && (forall k :: 0 <= k < |caches| ==> Current(caches[k], lastLogSecs, cachedTm))
      && (forall k :: 0 <= k < |caches| && !formatters[k].FullInfo? ==> caches[k] == NO_CACHE)
    }

    constructor (pattern: string, eol: string, pid: int, clock: int -> Tm)
      ensures this.pattern == pattern && this.eol == eol && this.pid == pid && this.clock == clock
      ensures Valid() && lastLogSecs == 0 && cachedTm == ZERO_TM
    {
      this.pattern, this.eol, this.pid, this.clock := pattern, eol, pid, clock;
      cachedTm, lastLogSecs := ZERO_TM, 0;
      formatters, caches := [], [];
      new;
      CompilePattern();
      caches := seq(|formatters|, _ => NO_CACHE);
    }

    method HandleFlag(flag: char)
      modifies this`formatters
      ensures formatters == old(formatters) + PiecesOf(flag)
    {
      formatters := formatters + PiecesOf(flag);
    }

    method CompilePattern()
      modifies this`formatters
      ensures formatters == Compiled(pattern)
    {
      formatters := [];
      var userChars := "";              // empty stands for the null pointer
      var i := 0;
      AllRemains(pattern);
      while i < |pattern|
        invariant i <= |pattern|
        invariant forall k :: 0 <= k < |userChars| ==> userChars[k] != '%'
        invariant Remaining(formatters, userChars, pattern[i..], pattern)
      {
        ghost var rest := pattern[i..];
        if pattern[i] == '%' {
          FlushPlain(formatters, userChars, rest, pattern);
          if userChars != "" {
            formatters := formatters + [Aggregate(userChars)];
            userChars := "";
          }
          i := i + 1;
          if i == |pattern| {
            assert rest == "%";
            break;
          }
          TakeFlag(formatters, rest, pattern);
          assert rest[2..] == pattern[i + 1..];
          HandleFlag(pattern[i]);
        } else {
          TakeChar(formatters, userChars, rest, pattern);
          assert rest[1..] == pattern[i + 1..];
          userChars := userChars + [pattern[i]];
        }
        hide Remaining, Compiled;
        i := i + 1;
      }
      if userChars != "" {
        FlushPlain(formatters, userChars, "", pattern);
        formatters := formatters + [Aggregate(userChars)];
        userChars := "";
      }
      NoneRemains(formatters, pattern);
      hide Remaining, Compiled;
    }

    /** One message into `dest`: the broken-down time is taken from the clock only when the second has changed. */
    method Format(m: Message, dest: Output) returns (out: Output)
      requires Valid()
      modifies this
      ensures Valid() && lastLogSecs == Seconds(m)
      ensures cachedTm == if Seconds(m) != old(lastLogSecs) then clock(Seconds(m)) else old(cachedTm)
      ensures out == Add(Read(pattern, m, cachedTm, pid, dest), eol)
    {
      var secs := Seconds(m);
      ghost var was, wasTm := lastLogSecs, cachedTm;
      if secs != lastLogSecs {
        cachedTm := clock(secs);
        lastLogSecs := secs;
      }
      hide Show, ShowAll, Compiled, DateText, Current, Read, Seconds;
      out := ShowFormatters(m, dest, was, wasTm);
      CompilePreserves(pattern, m, cachedTm, pid, dest);
      out := Add(out, eol);
    }

    /** The loop over the formatters; those of "%+" bring their caches up to date. */
    method ShowFormatters(m: Message, dest: Output, ghost was: int, ghost wasTm: Tm) returns (out: Output)
      requires |caches| == |formatters| && (Seconds(m) == was ==> cachedTm == wasTm)
      requires forall k :: 0 <= k < |caches| ==> Current(caches[k], was, wasTm)
      requires forall k :: 0 <= k < |caches| && !formatters[k].FullInfo? ==> caches[k] == NO_CACHE
      modifies this`caches
      ensures |caches| == |formatters|
      ensures forall k :: 0 <= k < |caches| ==> Current(caches[k], Seconds(m), cachedTm)
      ensures forall k :: 0 <= k < |caches| && !formatters[k].FullInfo? ==> caches[k] == NO_CACHE
      ensures out == ShowAll(formatters, m, cachedTm, pid, dest)
    {
      hide Show, ShowAll, Current, Seconds;
      out := dest;
      var k := 0;
      AllToShow(formatters);
      NeverCached(Seconds(m), cachedTm);
      while k < |formatters|
        invariant k <= |formatters| == |caches|
        invariant forall j :: 0 <= j < |caches| && !formatters[j].FullInfo? ==> caches[j] == NO_CACHE
        invariant forall j :: 0 <= j < k ==> Current(caches[j], Seconds(m), cachedTm)
        invariant forall j :: k <= j < |caches| ==> Current(caches[j], was, wasTm)
        invariant ShowAll(formatters[k..], m, cachedTm, pid, out) == ShowAll(formatters, m, cachedTm, pid, dest)
      {
        ShowNext(formatters, k, m, cachedTm, pid, out);
        if formatters[k].FullInfo? {
          out := FormatFull(k, m, cachedTm, out, was, wasTm);
        } else {
          out := Show(formatters[k], m, cachedTm, pid, out);
        }
        k := k + 1;
      }
      ShowNone(formatters, m, cachedTm, pid, out);
    }

    /** full_formatter::format: the date is written anew only when its second has changed. */
    method FormatFull(k: nat, m: Message, tm: Tm, dest: Output, ghost was: int, ghost wasTm: Tm) returns (out: Output)
      requires k < |caches| && Current(caches[k], was, wasTm) && (Seconds(m) == was ==> tm == wasTm)
      modifies this`caches
      ensures out == Show(FullInfo, m, tm, pid, dest)
      ensures |caches| == |old(caches)| && Current(caches[k], Seconds(m), tm)
      ensures forall j :: 0 <= j < |caches| && j != k ==> caches[j] == old(caches)[j]
    {
      if caches[k].timestamp != Seconds(m) || |caches[k].datetime| == 0 {
        caches := caches[k := Cache(Seconds(m), DateText(tm))];
      }
      out := AfterDate(m, Add(dest, caches[k].datetime));
      hide DateText, AfterDate, Add, Seconds;
    }
  }

  lemma ShowNext(pieces: seq<Piece>, k: nat, m: Message, tm: Tm, pid: int, out: Output)
    requires k < |pieces|
    ensures ShowAll(pieces[k..], m, tm, pid, out)
         == ShowAll(pieces[k + 1..], m, tm, pid, Show(pieces[k], m, tm, pid, out))
  {
    assert pieces[k..][1..] == pieces[k + 1..];
    hide Show;
  }

  lemma ShowNone(pieces: seq<Piece>, m: Message, tm: Tm, pid: int, out: Output)
    ensures ShowAll(pieces[|pieces|..], m, tm, pid, out) == out
  {
  }

  lemma NeverCached(secs: int, tm: Tm)
    ensures Current(NO_CACHE, secs, tm)
  {
  }

  lemma AllToShow(pieces: seq<Piece>)
    ensures pieces[0..] == pieces
  {
  }

  /** What compilation has still to do: `userChars` were read but not added, `rest` was not read. */
  ghost predicate Remaining(formatters: seq<Piece>, userChars: string, rest: string, pattern: string) {
    formatters + Compiled(userChars + rest) == Compiled(pattern)
  }

  lemma AllRemains(pattern: string)
    ensures pattern[0..] == pattern && Remaining([], "", pattern, pattern)
  {
    assert "" + pattern == pattern;
    hide Compiled;
  }

  lemma FlushPlain(formatters: seq<Piece>, userChars: string, rest: string, pattern: string)
    requires Remaining(formatters, userChars, rest, pattern)
    requires (forall k :: 0 <= k < |userChars| ==> userChars[k] != '%') && (rest == "" || rest[0] == '%')
    ensures Remaining(if userChars == "" then formatters else formatters + [Aggregate(userChars)], "", rest, pattern)
  {
    CompiledPlain(userChars, rest);
    assert "" + rest == rest;
    Associates(formatters, [Aggregate(userChars)], Compiled(rest));
    assert [] + Compiled(rest) == Compiled(rest);
    hide Compiled;
  }

  lemma Associates(a: seq<Piece>, b: seq<Piece>, c: seq<Piece>)
    ensures a + (b + c) == a + b + c
  {
  }

  lemma TakeFlag(formatters: seq<Piece>, rest: string, pattern: string)
    requires Remaining(formatters, "", rest, pattern) && |rest| > 1 && rest[0] == '%'
    ensures Remaining(formatters + PiecesOf(rest[1]), "", rest[2..], pattern)
  {
    assert "" + rest == rest && "" + rest[2..] == rest[2..];
    Associates(formatters, PiecesOf(rest[1]), Compiled(rest[2..]));
    hide PiecesOf;
  }

  lemma TakeChar(formatters: seq<Piece>, userChars: string, rest: string, pattern: string)
    requires Remaining(formatters, userChars, rest, pattern) && rest != ""
    ensures Remaining(formatters, userChars + [rest[0]], rest[1..], pattern)
  {
    assert userChars + rest == (userChars + [rest[0]]) + rest[1..];
    hide Compiled;
  }

  lemma NoneRemains(formatters: seq<Piece>, pattern: string)
    ensures Remaining(formatters, "", "", pattern) || Remaining(formatters, "", "%", pattern) ==>
      formatters == Compiled(pattern)
  {
    assert Compiled("" + "") == [] && Compiled("" + "%") == [];
  }

  lemma {:induction false} PlainIs(text: string, rest: string)
    requires (forall k :: 0 <= k < |text| ==> text[k] != '%') && (rest == "" || rest[0] == '%')
    ensures Plain(text + rest) == |text|
  {
    if text == "" {
      assert text + rest == rest;
    } else {
      assert (text + rest)[1..] == text[1..] + rest;
      PlainIs(text[1..], rest);
    }
  }

  lemma CompiledPlain(text: string, rest: string)
    requires (forall k :: 0 <= k < |text| ==> text[k] != '%') && (rest == "" || rest[0] == '%')
    ensures Compiled(text + rest) == (if text == "" then [] else [Aggregate(text)]) + Compiled(rest)
  {
    if text == "" {
      assert text + rest == rest;
    } else {
      PlainIs(text, rest);
      assert (text + rest)[..|text|] == text && (text + rest)[|text|..] == rest;
    }
  }

  // ----- whole runs -----

  /** The time the formatter has in its cache after a run, starting from the constructor's. */
  function CachedTime(clock: int -> Tm, messages: seq<Message>): (int, Tm) {
    if messages == [] then (0, ZERO_TM)
    else
      var (last, tm) := CachedTime(clock, messages[..|messages| - 1]);
      var secs := Seconds(messages[|messages| - 1]);
      (secs, if secs != last then clock(secs) else tm)
  }

  /** The time message k is printed with. */
  function TimeUsed(clock: int -> Tm, messages: seq<Message>, k: nat): Tm
    requires k < |messages|
  {
    CachedTime(clock, messages[..k + 1]).1
  }

  /** The cache holds the time of its second, except that the constructor's zeros pass for second 0. */
  lemma {:induction false} CacheHolds(clock: int -> Tm, messages: seq<Message>)
    requires messages != []
    ensures var (last, tm) := CachedTime(clock, messages);
      && last == Seconds(messages[|messages| - 1])
      && (Seconds(messages[0]) != 0 || clock(0) == ZERO_TM ==> tm == clock(last))
  {
    var front := messages[..|messages| - 1];
    if front != [] {
      CacheHolds(clock, front);
    } else {
      assert CachedTime(clock, front) == (0, ZERO_TM);
    }
    hide Seconds;
  }

  /**
    The cache is invisible for a whole run exactly if the run does not begin in
    second 0 of the epoch, or the zeroed structure happens to be the right time.
   */
  lemma CacheInvisible(clock: int -> Tm, messages: seq<Message>)
    ensures (forall k :: 0 <= k < |messages| ==> TimeUsed(clock, messages, k) == clock(Seconds(messages[k])))
       <==> messages == [] || Seconds(messages[0]) != 0 || clock(0) == ZERO_TM
  {
    forall k | 0 <= k < |messages| && (Seconds(messages[0]) != 0 || clock(0) == ZERO_TM)
      ensures TimeUsed(clock, messages, k) == clock(Seconds(messages[k]))
    {
      CacheHolds(clock, messages[..k + 1]);
    }
    if messages != [] && Seconds(messages[0]) == 0 {
      FirstTime(clock, messages);
    }
    hide Seconds, CachedTime;
  }

  lemma FirstTime(clock: int -> Tm, messages: seq<Message>)
    requires messages != [] && Seconds(messages[0]) == 0
    ensures TimeUsed(clock, messages, 0) == ZERO_TM
  {
    assert messages[..1][..0] == [];
    assert CachedTime(clock, messages[..1][..0]) == (0, ZERO_TM);
    hide Seconds;
  }

  /** What a run prints when every message asks the clock. */
  function Printed(pattern: string, eol: string, pid: int, m: Message, tm: Tm): Output {
    Add(Read(pattern, m, tm, pid, EMPTY), eol)
  }

  /** A new formatter prints a whole run, each message into an empty buffer. */
  method FormatRun(pattern: string, eol: string, pid: int, clock: int -> Tm, messages: seq<Message>)
    returns (outs: seq<Output>)
    ensures |outs| == |messages|
    ensures forall k :: 0 <= k < |outs| ==>
      outs[k] == Printed(pattern, eol, pid, messages[k], TimeUsed(clock, messages, k))
    ensures messages == [] || Seconds(messages[0]) != 0 || clock(0) == ZERO_TM ==>
      forall k :: 0 <= k < |outs| ==> outs[k] == Printed(pattern, eol, pid, messages[k], clock(Seconds(messages[k])))
  {
    var formatter := new PatternFormatter(pattern, eol, pid, clock);
    outs := [];
    var n := 0;
    while n < |messages|
      invariant n <= |messages| && |outs| == n && fresh(formatter) && formatter.Valid()
      invariant formatter.pattern == pattern && formatter.eol == eol && formatter.pid == pid && formatter.clock == clock
      invariant (formatter.lastLogSecs, formatter.cachedTm) == CachedTime(clock, messages[..n])
      invariant forall k :: 0 <= k < n ==>
        outs[k] == Printed(pattern, eol, pid, messages[k], TimeUsed(clock, messages, k))
    {
      assert messages[..n + 1][..n] == messages[..n];
      var out := formatter.Format(messages[n], EMPTY);
      outs := outs + [out];
      n := n + 1;
    }
    CacheInvisible(clock, messages);
  }

  /** A run that begins in second 0 shows the zeroed structure: the year comes out as 1900. */
  lemma SecondZero(m: Message, clock: int -> Tm)
    requires Seconds(m) == 0 && clock(0).year == 70
    ensures Printed("%Y", "", 0, m, TimeUsed(clock, [m], 0)).text == "1900"
    ensures Printed("%Y", "", 0, m, clock(Seconds(m))).text == "1970"
  {
    FirstTime(clock, [m]);
    YearOnly(m, ZERO_TM);
    YearOnly(m, clock(0));
    FourDigits();
    hide Read, Seconds, TimeUsed, Printed;
  }

  lemma YearOnly(m: Message, tm: Tm)
    ensures Printed("%Y", "", 0, m, tm).text == AppendInt(tm.year + 1900)
  {
    assert "%Y" == Step("", 'Y') + "";
    ReadStep("", 'Y', "", m, tm, 0, EMPTY);
    hide AppendInt;
  }

  lemma FourDigits()
    ensures AppendInt(1900) == "1900" && AppendInt(1970) == "1970"
  {
    assert Decimal.Digits(19) == "19";
    assert Decimal.Digits(190) == "190" && Decimal.Digits(197) == "197";
  }
}
