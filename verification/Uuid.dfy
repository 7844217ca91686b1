/**
  The text form of a UUID (section 3 of RFC 4122): `parse_uuid_string` and the
  stream operator that prints 8-4-4-4-12 lower-case hexadecimal digits.
 */
module Uuid {

  datatype Result<+T> = Ok(value: T) | Invalid(message: string)

  predicate IsHex(c: char) {
    '0' <= c <= '9' || 'a' <= c <= 'f' || 'A' <= c <= 'F'
  }

  /** `to_char` on an accepted character. */
  function HexValue(c: char): (v: nat)
    requires IsHex(c)
    ensures v < 16
  {
    if '0' <= c <= '9' then (c - '0') as nat
    else if 'a' <= c <= 'f' then (c - 'W') as nat
    else (c - '7') as nat
  }

  function HexChar(v: nat): (c: char)
    requires v < 16
    ensures IsHex(c) && HexValue(c) == v
  {
    if v < 10 then '0' + v as char else 'W' + v as char
  }

  function Lower(c: char): char {
    if 'A' <= c <= 'Z' then c + ' ' else c
  }

  function LowerAll(s: string): string {
    seq(|s|, i requires 0 <= i < |s| => Lower(s[i]))
  }

  lemma LowerHex(c: char)
    requires IsHex(c)
    ensures HexChar(HexValue(c)) == Lower(c)
  {
  }

  /** The digits are those of the two literal alphabets, and their values are the places there. */
  lemma HexByPlace(c: char)
    ensures IsHex(c) <==> c in "0123456789abcdef" || c in "0123456789ABCDEF"
    ensures IsHex(c) ==> "0123456789abcdef"[HexValue(c)] == c || "0123456789ABCDEF"[HexValue(c)] == c
  {
    var lower, upper := "0123456789abcdef", "0123456789ABCDEF";
    if IsHex(c) {
      PlaceIs(HexValue(c));
    } else if c in lower {
      var k: nat :| k < 16 && lower[k] == c;
      PlaceIs(k);
    } else if c in upper {
      var k: nat :| k < 16 && upper[k] == c;
      PlaceIs(k);
    }
  }

  /** Place by place: the character at `k` is a digit of value `k`. */
  lemma PlaceIs(k: nat)
    requires k < 16
    ensures var lower, upper := "0123456789abcdef"[k], "0123456789ABCDEF"[k];
      && IsHex(lower) && IsHex(upper) && HexValue(lower) == k && HexValue(upper) == k
      && HexChar(k) == lower && Lower(upper) == lower
      && (k < 10 ==> lower == '0' + k as char == upper)
      && (k >= 10 ==> lower == 'W' + k as char && upper == '7' + k as char)
  {
    match k {
      case 0 => case 1 => case 2 => case 3 => case 4 => case 5 => case 6 => case 7 =>
      case 8 => case 9 => case 10 => case 11 => case 12 => case 13 => case 14 => case 15 =>
    }
  }

  /** A digit of value `i`, in either case. */
  predicate DigitAt(c: char, i: nat)
    requires i < 16
  {
    c == "0123456789abcdef"[i] || c == "0123456789ABCDEF"[i]
  }

  lemma DigitFacts(c: char, i: nat)
    requires i < 16 && DigitAt(c, i)
    ensures IsHex(c) && HexValue(c) == i
  {
    PlaceIs(i);
  }

  /** What a pair of digits denotes, and how a byte is printed, by places alone. */
  lemma ByteByPlaces(a: char, b: char, i: nat, j: nat, text: string)
    requires i < 16 && j < 16 && DigitAt(a, i) && DigitAt(b, j)
    ensures Scan([a, b] + text) ==
      if Scan(text).Ok? then Ok([16 * i + j] + Scan(text).value) else Invalid("invalid digital")
    ensures PrintByte(16 * i + j) == ["0123456789abcdef"[i], "0123456789abcdef"[j]]
  {
    hide DigitAt;
    DigitFacts(a, i);
    DigitFacts(b, j);
    PairScan(a, b, text);
    PlaceIs(i);
    PlaceIs(j);
    assert (16 * i + j) / 16 == i && (16 * i + j) % 16 == j;
    hide IsHex, HexValue, Scan, HexChar;
  }

  lemma PairScan(a: char, b: char, text: string)
    requires IsHex(a) && IsHex(b)
    ensures Scan([a, b] + text) ==
      if Scan(text).Ok? then Ok([16 * HexValue(a) + HexValue(b)] + Scan(text).value) else Invalid("invalid digital")
  {
    assert ([a, b] + text)[2..] == text;
    ScanFails(text);
    hide HexValue;
  }

  lemma {:induction false} ScanFails(text: string)
    ensures Scan(text).Invalid? ==> Scan(text) == Invalid("invalid digital")
  {
    if text != "" {
      if text[0] == '-' {
        ScanFails(text[1..]);
      } else if |text| >= 2 {
        ScanFails(text[2..]);
      }
    }
  }

  type Bytes = seq<nat>

  predicate Octets(u: seq<nat>) {
    forall i :: 0 <= i < |u| ==> u[i] < 256
  }

  ghost predicate ValidBytes(u: Bytes) {
    |u| == 16 && Octets(u)
  }

  function PrintByte(b: nat): string
    requires b < 256
  {
    [HexChar(b / 16), HexChar(b % 16)]
  }

  function PrintBytes(u: Bytes): string
    requires Octets(u)
  {
    if u == [] then "" else PrintByte(u[0]) + PrintBytes(u[1..])
  }

  /** `operator<<` */
  function Print(u: Bytes): string
    requires ValidBytes(u)
  {
    PrintBytes(u[..4]) + "-" + PrintBytes(u[4..6]) + "-" + PrintBytes(u[6..8]) + "-"
    + PrintBytes(u[8..10]) + "-" + PrintBytes(u[10..])
  }

  // ----- parsing -----

  /** The bytes a text denotes: dashes are skipped, hexadecimal digits taken in pairs. */
  function Scan(text: string): Result<seq<nat>> {
    if text == "" then Ok([])
    else if text[0] == '-' then Scan(text[1..])
    else if |text| < 2 || !IsHex(text[0]) || !IsHex(text[1]) then Invalid("invalid digital")
    else
      match Scan(text[2..])
      case Invalid(message) => Invalid(message)
      case Ok(bytes) => Ok([16 * HexValue(text[0]) + HexValue(text[1])] + bytes)
  }

  predicate HasDashes(s: string) {
    |s| == 36 && s[8] == '-' && s[13] == '-' && s[18] == '-' && s[23] == '-'
  }

  /** Bytes that no digit pair set stay zero. */
  function FillUp(bytes: seq<nat>): Bytes {
    if |bytes| >= 16 then bytes else bytes + seq(16 - |bytes|, _ => 0)
  }

  function Parse(s: string): Result<Bytes> {
    if !HasDashes(s) then Invalid("invalid UUID")
    else
      match Scan(s)
      case Invalid(message) => Invalid(message)
      case Ok(bytes) => Ok(FillUp(bytes))
  }

  function Dashes(text: string): (n: nat)
    ensures n <= |text|
  {
    if text == "" then 0 else Dashes(text[1..]) + (if text[0] == '-' then 1 else 0)
  }

  lemma {:induction false} DashesJoined(a: string, b: string)
    ensures Dashes(a + b) == Dashes(a) + Dashes(b)
  {
    if a == "" {
      assert a + b == b;
    } else {
      assert (a + b)[1..] == a[1..] + b;
      DashesJoined(a[1..], b);
    }
  }

  /** Every dash costs one character and every byte two. */
  lemma {:induction false} ScanCounts(text: string)
    ensures Scan(text).Ok? ==> 2 * |Scan(text).value| + Dashes(text) == |text|
    ensures Scan(text).Ok? ==> Octets(Scan(text).value)
  {
    if text != "" {
      if text[0] == '-' {
        ScanCounts(text[1..]);
      } else if |text| >= 2 && IsHex(text[0]) && IsHex(text[1]) {
        ScanCounts(text[2..]);
        assert text[1..][1..] == text[2..];
      }
    }
  }

  lemma FourDashes(s: string)
    requires HasDashes(s)
    ensures Dashes(s) >= 4
  {
    assert s == s[..8] + ("-" + (s[9..13] + ("-" + (s[14..18] + ("-" + (s[19..23] + ("-" + s[24..])))))));
    DashesJoined(s[..8], "-" + (s[9..13] + ("-" + (s[14..18] + ("-" + (s[19..23] + ("-" + s[24..])))))));
    AfterDash(s[9..13], "-" + (s[14..18] + ("-" + (s[19..23] + ("-" + s[24..])))));
    AfterDash(s[14..18], "-" + (s[19..23] + ("-" + s[24..])));
    AfterDash(s[19..23], "-" + s[24..]);
    AfterDash(s[24..], "");
    assert s[24..] + "" == s[24..];
  }

  lemma AfterDash(a: string, b: string)
    ensures Dashes("-" + (a + b)) >= 1 + Dashes(b)
  {
    assert ("-" + (a + b))[1..] == a + b;
    DashesJoined(a, b);
  }

  // ----- the code -----

  method ToChar(c: char) returns (r: Result<nat>)
    ensures r == if IsHex(c) then Ok(HexValue(c)) else Invalid("invalid digital")
    ensures forall i: nat :: i < 16 && DigitAt(c, i) ==> r == Ok(i)
    ensures c !in "0123456789abcdef" && c !in "0123456789ABCDEF" ==> r == Invalid("invalid digital")
  {
    HexByPlace(c);
    forall i: nat | i < 16 && DigitAt(c, i)
      ensures IsHex(c) && HexValue(c) == i
    {
      PlaceIs(i);
    }
    hide DigitAt;
    if c > '/' && c < ':' {
      return Ok((c - '0') as nat);
    }
    if c > '`' && c < 'g' {
      return Ok((c - 'W') as nat);
    }
    if c > '@' && c < 'G' {
      return Ok((c - '7') as nat);
    }
    r := Invalid("invalid digital");
  }

  method MakeHex(a: char, b: char) returns (r: Result<nat>)
    ensures r == if IsHex(a) && IsHex(b) then Ok(16 * HexValue(a) + HexValue(b)) else Invalid("invalid digital")
  {
    var high := ToChar(a);
    if high.Invalid? {
      return high;
    }
    var low := ToChar(b);
    if low.Invalid? {
      return low;
    }
    r := Ok(high.value * 16 + low.value);
  }

  /** The character at `i`, with the terminating NUL that std::string keeps behind its last one. */
  function At(s: string, i: nat): char
    requires i <= |s|
  {
    if i == |s| then '\0' else s[i]
  }

  /**
    `parse_uuid_string`: the two loop indices.  On every 36-character input the
    byte index stays below 16 and the text is read at most one place past its end.
   */
  method ParseUuidString(s: string) returns (r: Result<Bytes>)
    ensures r == Parse(s)
  {
    hide *;
    NotDashed(s);
    if |s| != 36 {
      return Invalid("invalid UUID");
    }
    if s[8] != '-' || s[13] != '-' || s[18] != '-' || s[23] != '-' {
      return Invalid("invalid UUID");
    }
    var uuid := new nat[16](_ => 0);
    ghost var found: seq<nat> := [];
    var i, j: nat := 0, 0;
    NothingRead(s, uuid[..]);
    while i < |s|
      invariant i <= |s| && Progress(s, i, j, found, uuid[..])
    {
      TakeOne(s, i, j, found, uuid[..]);
      if s[i] == '-' {
        i := i + 1;
        continue;
      }
      var b := MakeHex(s[i], At(s, i + 1));
      if b.Invalid? {
        return Invalid(b.message);
      }
      ghost var cells := uuid[..];
      TakePair(s, i, j, found, cells, b.value);
      uuid[j] := b.value;
      assert uuid[..] == cells[j := b.value];
      found := found + [b.value];
      j := j + 1;
      i := i + 2;
    }
    AllRead(s, j, found, uuid[..]);
    r := Ok(uuid[..]);
  }

  function Preceded(found: seq<nat>, r: Result<seq<nat>>): Result<seq<nat>> {
    match r
    case Ok(bytes) => Ok(found + bytes)
    case Invalid(message) => Invalid(message)
  }

  /** Loop state: `j` bytes were found before place `i` and stored in the array. */
  ghost predicate Progress(s: string, i: nat, j: nat, found: seq<nat>, cells: Bytes) {
    && HasDashes(s) && i <= |s| && 2 * j + Dashes(s[..i]) == i && j == |found| <= 16
    && cells == FillUp(found)
    && Scan(s) == Preceded(found, Scan(s[i..]))
  }

  lemma NotDashed(s: string)
    ensures |s| != 36 || s[8] != '-' || s[13] != '-' || s[18] != '-' || s[23] != '-' ==>
      Parse(s) == Invalid("invalid UUID")
  {
  }

  lemma NothingRead(s: string, zeros: seq<nat>)
    requires |s| == 36 && s[8] == '-' && s[13] == '-' && s[18] == '-' && s[23] == '-'
    requires |zeros| == 16 && forall i :: 0 <= i < 16 ==> zeros[i] == 0
    ensures Progress(s, 0, 0, [], zeros)
  {
    assert s[0..] == s && s[..0] == "";
    assert zeros == FillUp([]);
    NothingFound(Scan(s));
    hide Scan;
  }

  lemma AllRead(s: string, j: nat, found: seq<nat>, cells: Bytes)
    requires Progress(s, |s|, j, found, cells)
    ensures Parse(s) == Ok(cells)
  {
    assert s[|s|..] == "";
    assert found + [] == found;
  }

  /** Reading a dash, or two characters that are not hexadecimal digits. */
  lemma TakeOne(s: string, i: nat, j: nat, found: seq<nat>, cells: Bytes)
    requires Progress(s, i, j, found, cells) && i < |s|
    ensures s[i] == '-' ==> Progress(s, i + 1, j, found, cells)
    ensures s[i] != '-' && !(IsHex(s[i]) && IsHex(At(s, i + 1))) ==> Parse(s) == Invalid("invalid digital")
  {
    OneCharacter(s, i);
    hide FillUp, Dashes;
  }

  lemma TakePair(s: string, i: nat, j: nat, found: seq<nat>, cells: Bytes, b: nat)
    requires Progress(s, i, j, found, cells) && i < |s| && s[i] != '-'
    requires IsHex(s[i]) && IsHex(At(s, i + 1)) && b == 16 * HexValue(s[i]) + HexValue(At(s, i + 1))
    ensures i + 1 < |s| && j < 16 && |cells| == 16
    ensures Progress(s, i + 2, j + 1, found + [b], cells[j := b])
  {
    NulIsNotHex();
    FourDashes(s);
    DashesBehind(s, i);
    SetNext(found, b);
    PairScanned(s, i, found);
    hide FillUp, Dashes, Scan, Preceded, HexValue, IsHex, HasDashes;
  }

  lemma NulIsNotHex()
    ensures !IsHex('\0')
  {
  }

  lemma NothingFound(r: Result<seq<nat>>)
    ensures Preceded([], r) == r
  {
    if r.Ok? {
      assert [] + r.value == r.value;
    }
  }

  lemma OneCharacter(s: string, i: nat)
    requires i < |s|
    ensures Dashes(s[..i + 1]) == Dashes(s[..i]) + (if s[i] == '-' then 1 else 0)
    ensures s[i] == '-' ==> Scan(s[i..]) == Scan(s[i + 1..])
    ensures s[i] != '-' && !(IsHex(s[i]) && IsHex(At(s, i + 1))) ==> Scan(s[i..]) == Invalid("invalid digital")
  {
    DashesJoined(s[..i], [s[i]]);
    assert s[..i + 1] == s[..i] + [s[i]];
    assert Dashes([s[i]]) == Dashes([s[i]][1..]) + (if s[i] == '-' then 1 else 0);
    assert s[i..][1..] == s[i + 1..];
  }

  lemma DashesBehind(s: string, i: nat)
    requires i < |s| && s[i] != '-'
    ensures Dashes(s[..i]) + (|s| - i - 1) >= Dashes(s)
  {
    assert s == s[..i + 1] + s[i + 1..];
    DashesJoined(s[..i + 1], s[i + 1..]);
    OneCharacter(s, i);
    hide Scan, IsHex;
  }

  lemma PairScanned(s: string, i: nat, found: seq<nat>)
    requires i + 1 < |s| && s[i] != '-' && IsHex(s[i]) && IsHex(s[i + 1])
    ensures Preceded(found, Scan(s[i..]))
         == Preceded(found + [16 * HexValue(s[i]) + HexValue(s[i + 1])], Scan(s[i + 2..]))
    ensures Dashes(s[..i + 2]) == Dashes(s[..i])
  {
    assert s[i..][2..] == s[i + 2..];
    OneCharacter(s, i);
    OneCharacter(s, i + 1);
    hide Dashes, HexValue;
    if Scan(s[i + 2..]).Ok? {
      var b, rest := 16 * HexValue(s[i]) + HexValue(s[i + 1]), Scan(s[i + 2..]).value;
      assert found + ([b] + rest) == (found + [b]) + rest;
    }
  }

  lemma SetNext(found: seq<nat>, b: nat)
    requires |found| < 16
    ensures FillUp(found)[|found| := b] == FillUp(found + [b])
  {
  }

  // ----- printing and parsing undo each other -----

  ghost predicate AllHex(s: string) {
    forall i :: 0 <= i < |s| ==> IsHex(s[i])
  }

  /** The bytes of an even number of hexadecimal digits. */
  function Decode(s: string): seq<nat>
    requires AllHex(s) && |s| % 2 == 0
  {
    if s == "" then [] else [16 * HexValue(s[0]) + HexValue(s[1])] + Decode(s[2..])
  }

  lemma {:induction false} ScanHex(s: string, rest: string)
    requires AllHex(s) && |s| % 2 == 0
    ensures Scan(s + rest) == Preceded(Decode(s), Scan(rest))
  {
    if s == "" {
      assert s + rest == rest;
      NothingFound(Scan(rest));
    } else {
      assert (s + rest)[2..] == s[2..] + rest;
      ScanHex(s[2..], rest);
      var b := 16 * HexValue(s[0]) + HexValue(s[1]);
      if Scan(rest).Ok? {
        assert [b] + (Decode(s[2..]) + Scan(rest).value) == ([b] + Decode(s[2..])) + Scan(rest).value;
      }
    }
  }

  lemma {:induction false} PrintedIsHex(u: Bytes)
    requires Octets(u)
    ensures AllHex(PrintBytes(u)) && |PrintBytes(u)| == 2 * |u| && Decode(PrintBytes(u)) == u
  {
    if u != [] {
      PrintedIsHex(u[1..]);
      assert PrintBytes(u)[2..] == PrintBytes(u[1..]);
      assert u == [u[0]] + u[1..];
    }
  }

  lemma {:induction false} DecodedPrintsLower(s: string)
    requires AllHex(s) && |s| % 2 == 0
    ensures 2 * |Decode(s)| == |s|
    ensures Octets(Decode(s))
    ensures PrintBytes(Decode(s)) == LowerAll(s)
  {
    if s != "" {
      DecodeTail(s);
      DecodedPrintsLower(s[2..]);
      ByteLower(s[0], s[1]);
      PrintTail(16 * HexValue(s[0]) + HexValue(s[1]), Decode(s[2..]));
      LowerTwo(s);
      OctetsTail(16 * HexValue(s[0]) + HexValue(s[1]), Decode(s[2..]));
      hide *;
    }
  }

  lemma LowerTwo(s: string)
    requires |s| >= 2
    ensures LowerAll(s) == [Lower(s[0]), Lower(s[1])] + LowerAll(s[2..])
  {
    hide Lower;
  }

  lemma ByteLower(a: char, b: char)
    requires IsHex(a) && IsHex(b)
    ensures 16 * HexValue(a) + HexValue(b) < 256
    ensures PrintByte(16 * HexValue(a) + HexValue(b)) == [Lower(a), Lower(b)]
  {
    LowerHex(a);
    LowerHex(b);
    hide HexValue, HexChar, Lower;
  }

  lemma OctetsTail(b: nat, rest: Bytes)
    requires b < 256 && Octets(rest)
    ensures Octets([b] + rest)
  {
  }

  lemma DecodeTail(s: string)
    requires AllHex(s) && |s| % 2 == 0 && s != ""
    ensures AllHex(s[2..]) && Decode(s) == [16 * HexValue(s[0]) + HexValue(s[1])] + Decode(s[2..])
  {
  }

  lemma PrintTail(b: nat, rest: Bytes)
    requires b < 256 && Octets(rest)
    ensures Octets([b] + rest)
    ensures PrintBytes([b] + rest) == PrintByte(b) + PrintBytes(rest)
  {
    assert ([b] + rest)[1..] == rest;
  }

  /** Five groups of hexadecimal digits joined by dashes. */
  function Joined(a: string, b: string, c: string, d: string, e: string): string {
    a + ("-" + (b + ("-" + (c + ("-" + (d + ("-" + e)))))))
  }

  lemma ScanGroup(group: string, rest: string)
    requires AllHex(group) && |group| % 2 == 0
    ensures Scan(group + ("-" + rest)) == Preceded(Decode(group), Scan(rest))
  {
    ScanHex(group, "-" + rest);
    assert ("-" + rest)[1..] == rest;
  }

  lemma ScanJoined(a: string, b: string, c: string, d: string, e: string)
    requires AllHex(a) && AllHex(b) && AllHex(c) && AllHex(d) && AllHex(e)
    requires |a| % 2 == 0 && |b| % 2 == 0 && |c| % 2 == 0 && |d| % 2 == 0 && |e| % 2 == 0
    ensures Scan(Joined(a, b, c, d, e)) == Ok(Decode(a) + (Decode(b) + (Decode(c) + (Decode(d) + Decode(e)))))
  {
    ScanGroup(a, b + ("-" + (c + ("-" + (d + ("-" + e))))));
    ScanGroup(b, c + ("-" + (d + ("-" + e))));
    ScanGroup(c, d + ("-" + e));
    ScanGroup(d, e);
    ScanHex(e, "");
    assert e + "" == e && Decode(e) + [] == Decode(e);
    hide Decode;
  }

  lemma PrintIsJoined(u: Bytes)
    requires ValidBytes(u)
    ensures Print(u) ==
      Joined(PrintBytes(u[..4]), PrintBytes(u[4..6]), PrintBytes(u[6..8]), PrintBytes(u[8..10]), PrintBytes(u[10..]))
  {
    hide PrintBytes;
    JoinedIs(PrintBytes(u[..4]), PrintBytes(u[4..6]), PrintBytes(u[6..8]), PrintBytes(u[8..10]), PrintBytes(u[10..]));
  }

  lemma GroupsAreHex(u: Bytes)
    requires ValidBytes(u)
    ensures Group(PrintBytes(u[..4]), u[..4])
    ensures Group(PrintBytes(u[4..6]), u[4..6]) && Group(PrintBytes(u[6..8]), u[6..8])
    ensures Group(PrintBytes(u[8..10]), u[8..10]) && Group(PrintBytes(u[10..]), u[10..])
  {
    PrintedIsHex(u[..4]);
    PrintedIsHex(u[4..6]);
    PrintedIsHex(u[6..8]);
    PrintedIsHex(u[8..10]);
    PrintedIsHex(u[10..]);
    hide PrintBytes, Decode;
  }

  /** `text` is the printed form of `bytes`. */
  ghost predicate Group(text: string, bytes: Bytes) {
    AllHex(text) && |text| == 2 * |bytes| && Decode(text) == bytes
  }

  lemma PrintShape(u: Bytes)
    requires ValidBytes(u)
    ensures HasDashes(Print(u)) && NoOtherDash(Print(u))
  {
    PrintIsJoined(u);
    GroupsAreHex(u);
    hide PrintBytes, Decode, Joined, HasDashes, NoOtherDash, Print, AllHex;
    JoinedShape(
      PrintBytes(u[..4]), PrintBytes(u[4..6]), PrintBytes(u[6..8]), PrintBytes(u[8..10]), PrintBytes(u[10..]));
  }

  /** Parsing a printed UUID gives the UUID. */
  lemma ParseOfPrint(u: Bytes)
    requires ValidBytes(u)
    ensures Parse(Print(u)) == Ok(u)
  {
    PrintIsJoined(u);
    PrintShape(u);
    GroupsAreHex(u);
    hide PrintBytes, Decode, Joined, Scan, Print, HasDashes, AllHex;
    ScanJoined(PrintBytes(u[..4]), PrintBytes(u[4..6]), PrintBytes(u[6..8]), PrintBytes(u[8..10]), PrintBytes(u[10..]));
    assert u == u[..4] + (u[4..6] + (u[6..8] + (u[8..10] + u[10..])));
  }

  lemma JoinedIs(a: string, b: string, c: string, d: string, e: string)
    ensures Joined(a, b, c, d, e) == a + "-" + b + "-" + c + "-" + d + "-" + e
  {
  }

  lemma JoinedShape(a: string, b: string, c: string, d: string, e: string)
    requires |a| == 8 && |b| == |c| == |d| == 4 && |e| == 12
    ensures HasDashes(Joined(a, b, c, d, e))
    ensures AllHex(a) && AllHex(b) && AllHex(c) && AllHex(d) && AllHex(e) ==>
      NoOtherDash(Joined(a, b, c, d, e))
  {
  }

  predicate NoOtherDash(s: string)
    requires |s| == 36
  {
    forall i :: 0 <= i < 36 && i != 8 && i != 13 && i != 18 && i != 23 ==> s[i] != '-'
  }

  // ----- what parsing accepts, and when printing gives the input back -----

  /** Length of the first dash-free run. */
  function Run(text: string): (n: nat)
    ensures n <= |text| && (n < |text| ==> text[n] == '-')
  {
    if text == "" || text[0] == '-' then 0 else 1 + Run(text[1..])
  }

  /** Between dashes stand only complete pairs of hexadecimal digits. */
  ghost predicate PairsBetweenDashes(text: string)
    decreases |text|
  {
    var n := Run(text);
    && n % 2 == 0 && AllHex(text[..n])
    && (n < |text| ==> PairsBetweenDashes(text[n + 1..]))
  }

  lemma {:induction false} ScannedTexts(text: string)
    ensures Scan(text).Ok? <==> PairsBetweenDashes(text)
    decreases |text|
  {
    if text != "" {
      if text[0] == '-' {
        ScannedTexts(text[1..]);
      } else if |text| >= 2 && IsHex(text[0]) && IsHex(text[1]) {
        ScannedTexts(text[2..]);
        PairInFront(text);
        hide PairsBetweenDashes;
      } else {
        BadPair(text, Run(text));
      }
    }
  }

  lemma RunAfterPair(text: string)
    requires |text| >= 2 && text[0] != '-' && text[1] != '-'
    ensures Run(text) == 2 + Run(text[2..])
  {
    assert Run(text) == 1 + Run(text[1..]);
    assert text[1..][1..] == text[2..];
  }

  lemma PairsUnfolded(text: string, n: nat)
    requires n == Run(text)
    ensures PairsBetweenDashes(text) <==>
      n % 2 == 0 && AllHex(text[..n]) && (n < |text| ==> PairsBetweenDashes(text[n + 1..]))
  {
  }

  lemma PairInFront(text: string)
    requires |text| >= 2 && IsHex(text[0]) && IsHex(text[1])
    ensures PairsBetweenDashes(text) <==> PairsBetweenDashes(text[2..])
  {
    var rest, n := text[2..], Run(text[2..]);
    RunAfterPair(text);
    PairsUnfolded(text, n + 2);
    PairsUnfolded(rest, n);
    HexPairInFront(text[0], text[1], rest[..n]);
    SlicesAgree(text, rest, n);
    hide *;
  }

  lemma SlicesAgree(text: string, rest: string, n: nat)
    requires |text| >= 2 && rest == text[2..] && n <= |rest|
    ensures text[..n + 2] == [text[0], text[1]] + rest[..n]
    ensures n < |rest| ==> rest[n + 1..] == text[n + 2 + 1..]
    ensures (n + 2) % 2 == n % 2
  {
  }

  lemma HexPairInFront(a: char, b: char, rest: string)
    requires IsHex(a) && IsHex(b)
    ensures AllHex([a, b] + rest) <==> AllHex(rest)
  {
    hide IsHex;
    if AllHex([a, b] + rest) {
      assert forall i :: 0 <= i < |rest| ==> rest[i] == ([a, b] + rest)[i + 2];
    }
  }

  lemma BadPair(text: string, n: nat)
    requires text != "" && text[0] != '-' && n == Run(text)
    requires |text| < 2 || !IsHex(text[0]) || !IsHex(text[1])
    ensures n % 2 == 1 || !AllHex(text[..n])
  {
    if n >= 2 {
      assert text[..n][0] == text[0] && text[..n][1] == text[1];
    }
  }

  /** Exactly these 36-character texts are accepted; dashes beyond the four required ones are among them. */
  lemma AcceptedExactly(s: string)
    ensures Parse(s).Ok? <==> HasDashes(s) && PairsBetweenDashes(s)
  {
    ScannedTexts(s);
  }

  lemma {:induction false} ScannedCharacters(text: string)
    requires Scan(text).Ok?
    ensures forall i :: 0 <= i < |text| ==> text[i] == '-' || IsHex(text[i])
  {
    if text != "" {
      if text[0] == '-' {
        ScannedCharacters(text[1..]);
        assert forall i :: 1 <= i < |text| ==> text[i] == text[1..][i - 1];
      } else {
        ScannedCharacters(text[2..]);
        assert forall i :: 2 <= i < |text| ==> text[i] == text[2..][i - 2];
      }
    }
  }

  lemma LowerJoined(a: string, b: string)
    ensures LowerAll(a + b) == LowerAll(a) + LowerAll(b)
  {
    hide Lower;
  }

  lemma LowerDash(rest: string)
    ensures LowerAll("-" + rest) == "-" + LowerAll(rest)
  {
    assert Lower('-') == '-';
  }

  lemma LowerGroup(a: string, rest: string)
    ensures LowerAll(a + ("-" + rest)) == LowerAll(a) + ("-" + LowerAll(rest))
  {
    LowerJoined(a, "-" + rest);
    LowerDash(rest);
  }

  lemma LowerOfJoined(a: string, b: string, c: string, d: string, e: string)
    ensures LowerAll(Joined(a, b, c, d, e)) == Joined(LowerAll(a), LowerAll(b), LowerAll(c), LowerAll(d), LowerAll(e))
  {
    hide LowerAll;
    LowerGroup(a, b + ("-" + (c + ("-" + (d + ("-" + e))))));
    LowerGroup(b, c + ("-" + (d + ("-" + e))));
    LowerGroup(c, d + ("-" + e));
    LowerGroup(d, e);
  }

  lemma JoinedGroups(s: string)
    requires HasDashes(s)
    ensures s == Joined(s[..8], s[9..13], s[14..18], s[19..23], s[24..])
  {
  }

  /** The accepted texts without further dashes print as their own lower-case form. */
  lemma CanonicalPrints(s: string)
    requires Parse(s).Ok? && NoOtherDash(s)
    ensures ValidBytes(Parse(s).value) && Print(Parse(s).value) == LowerAll(s)
  {
    ScannedCharacters(s);
    var a, b, c, d, e := s[..8], s[9..13], s[14..18], s[19..23], s[24..];
    assert AllHex(a) && AllHex(b) && AllHex(c) && AllHex(d) && AllHex(e);
    JoinedGroups(s);
    GroupsPrintLower(s, a, b, c, d, e);
  }

  lemma GroupsPrintLower(s: string, a: string, b: string, c: string, d: string, e: string)
    requires Parse(s).Ok? && s == Joined(a, b, c, d, e)
    requires |a| == 8 && |b| == |c| == |d| == 4 && |e| == 12
    requires AllHex(a) && AllHex(b) && AllHex(c) && AllHex(d) && AllHex(e)
    ensures ValidBytes(Parse(s).value) && Print(Parse(s).value) == LowerAll(s)
  {
    ScanJoined(a, b, c, d, e);
    DecodedPrintsLower(a);
    DecodedPrintsLower(b);
    DecodedPrintsLower(c);
    DecodedPrintsLower(d);
    DecodedPrintsLower(e);
    LowerOfJoined(a, b, c, d, e);
    hide Scan, Joined, LowerAll, PrintBytes, HasDashes, AllHex, Decode;
    var u := Parse(s).value;
    assert |Decode(e)| == 6;
    assert u == Decode(a) + (Decode(b) + (Decode(c) + (Decode(d) + Decode(e))));
    FiveParts(u, Decode(a), Decode(b), Decode(c), Decode(d), Decode(e));
    PrintIsJoined(u);
  }

  lemma FiveParts(u: Bytes, a: Bytes, b: Bytes, c: Bytes, d: Bytes, e: Bytes)
    requires u == a + (b + (c + (d + e)))
    requires |a| == 4 && |b| == |c| == |d| == 2 && |e| == 6
    ensures u[..4] == a && u[4..6] == b && u[6..8] == c && u[8..10] == d && u[10..] == e
    ensures Octets(a) && Octets(b) && Octets(c) && Octets(d) && Octets(e) ==> ValidBytes(u)
  {
  }

  lemma ParsedBytesAreValid(s: string)
    requires Parse(s).Ok?
    ensures ValidBytes(Parse(s).value)
  {
    ScanCounts(s);
    FourDashes(s);
  }

  /**
    Printing what was parsed gives the lower-cased text back exactly when it has
    no dash outside the four required places.
   */
  lemma PrintOfParse(s: string)
    requires Parse(s).Ok?
    ensures ValidBytes(Parse(s).value)
    ensures Print(Parse(s).value) == LowerAll(s) <==> NoOtherDash(s)
  {
    ParsedBytesAreValid(s);
    var u := Parse(s).value;
    if NoOtherDash(s) {
      CanonicalPrints(s);
    } else if Print(u) == LowerAll(s) {
      PrintShape(u);
      forall i | 0 <= i < 36 && i != 8 && i != 13 && i != 18 && i != 23
        ensures s[i] != '-'
      {
        assert LowerAll(s)[i] == Lower(s[i]);
      }
    }
    hide Print, Parse;
  }

  /** Thirty-six dashes are accepted as the nil UUID, whose printed form they are not. */
  lemma OnlyDashes()
    ensures var s := seq(36, i => '-');
      Parse(s) == Ok(seq(16, _ => 0)) && Print(seq(16, _ => 0)) != LowerAll(s)
  {
    var s := seq(36, i => '-');
    DashesScan(s);
    assert FillUp([]) == seq(16, _ => 0);
    assert !NoOtherDash(s) by { assert s[0] == '-'; }
    PrintOfParse(s);
  }

  lemma {:induction false} DashesScan(s: string)
    requires forall i :: 0 <= i < |s| ==> s[i] == '-'
    ensures Scan(s) == Ok([])
  {
    if s != "" {
      DashesScan(s[1..]);
    }
  }

  // ----- byte by byte -----

  /** Where the two digits of byte `k` stand in the printed form. */
  function PlaceOf(k: nat): nat
    requires k < 16
  {
    2 * k + (if k < 4 then 0 else if k < 6 then 1 else if k < 8 then 2 else if k < 10 then 3 else 4)
  }

  lemma {:induction false} PrintBytesAt(u: Bytes, k: nat)
    requires Octets(u) && k < |u|
    ensures |PrintBytes(u)| == 2 * |u| && PrintBytes(u)[2 * k] == PrintByte(u[k])[0]
    ensures PrintBytes(u)[2 * k + 1] == PrintByte(u[k])[1]
  {
    assert Octets(u[1..]);
    if |u| > 1 {
      PrintBytesAt(u[1..], if k > 0 then k - 1 else 0);
    }
    hide PrintByte;
  }

  lemma {:induction false} PrintBytesLength(u: Bytes)
    requires Octets(u)
    ensures |PrintBytes(u)| == 2 * |u|
  {
    if u != [] {
      assert Octets(u[1..]);
      PrintBytesLength(u[1..]);
    }
  }

  /** The group of byte `k`, as the place of its first byte and the place behind its last one. */
  function GroupOf(k: nat): (nat, nat)
    requires k < 16
  {
    if k < 4 then (0, 4) else if k < 6 then (4, 6) else if k < 8 then (6, 8) else if k < 10 then (8, 10) else (10, 16)
  }

  lemma PrintedByte(u: Bytes, k: nat)
    requires ValidBytes(u) && k < 16
    ensures |Print(u)| == 36
    ensures Print(u)[PlaceOf(k)] == PrintByte(u[k])[0] && Print(u)[PlaceOf(k) + 1] == PrintByte(u[k])[1]
  {
    var (from, to) := GroupOf(k);
    var group := u[from..to];
    assert group[k - from] == u[k];
    PrintBytesLength(u[0..4]);
    PrintBytesLength(u[4..6]);
    PrintBytesLength(u[6..8]);
    PrintBytesLength(u[8..10]);
    PrintBytesLength(u[10..16]);
    PrintBytesAt(group, k - from);
    hide PrintBytes, PrintByte;
    InItsGroup(u, k);
    hide *;
  }

  /** The printed form, place by place. */
  lemma PrintAt(u: Bytes, k: nat)
    requires ValidBytes(u) && k < 16
    ensures |Print(u)| == 36
    ensures Print(u)[PlaceOf(k)] == "0123456789abcdef"[u[k] / 16]
    ensures Print(u)[PlaceOf(k) + 1] == "0123456789abcdef"[u[k] % 16]
  {
    var b := u[k];
    assert PrintByte(b)[0] == HexChar(b / 16) && PrintByte(b)[1] == HexChar(b % 16);
    PlaceIs(b / 16);
    PlaceIs(b % 16);
    hide Print, PrintByte, HexChar, PlaceOf;
    PrintedByte(u, k);
  }

  lemma InItsGroup(u: Bytes, k: nat)
    requires ValidBytes(u) && k < 16
    requires |PrintBytes(u[0..4])| == 8 && |PrintBytes(u[4..6])| == 4 && |PrintBytes(u[6..8])| == 4
    requires |PrintBytes(u[8..10])| == 4 && |PrintBytes(u[10..16])| == 12
    ensures |Print(u)| == 36
    ensures var (from, to) := GroupOf(k);
      && Print(u)[PlaceOf(k)] == PrintBytes(u[from..to])[2 * (k - from)]
      && Print(u)[PlaceOf(k) + 1] == PrintBytes(u[from..to])[2 * (k - from) + 1]
  {
    assert u[0..4] == u[..4] && u[10..16] == u[10..];
    var a, b, c, d, e :=
      PrintBytes(u[0..4]), PrintBytes(u[4..6]), PrintBytes(u[6..8]), PrintBytes(u[8..10]), PrintBytes(u[10..16]);
    assert Print(u) == a + "-" + b + "-" + c + "-" + d + "-" + e;
    InFiveParts(a, b, c, d, e, PlaceOf(k));
    InFiveParts(a, b, c, d, e, PlaceOf(k) + 1);
    hide Print, PrintBytes;
  }

  /** A text of the 8-4-4-4-12 form, read in one of its parts. */
  lemma InFiveParts(a: string, b: string, c: string, d: string, e: string, i: nat)
    requires |a| == 8 && |b| == 4 && |c| == 4 && |d| == 4 && |e| == 12
    ensures var all := a + "-" + b + "-" + c + "-" + d + "-" + e;
      && |all| == 36
      && (i < 8 ==> all[i] == a[i])
      && (9 <= i < 13 ==> all[i] == b[i - 9])
      && (14 <= i < 18 ==> all[i] == c[i - 14])
      && (19 <= i < 23 ==> all[i] == d[i - 19])
      && (24 <= i < 36 ==> all[i] == e[i - 24])
  {
  }

  /** The bytes read from a text in the 8-4-4-4-12 form, place by place. */
  lemma ParseAt(s: string, k: nat)
    requires Parse(s).Ok? && |s| == 36 && NoOtherDash(s) && k < 16
    ensures var u := Parse(s).value;
      && ValidBytes(u)
      && DigitAt(s[PlaceOf(k)], u[k] / 16) && DigitAt(s[PlaceOf(k) + 1], u[k] % 16)
  {
    var u := Parse(s).value;
    PrintOfParse(s);
    PrintAt(u, k);
    LowerIs(s[PlaceOf(k)], u[k] / 16);
    LowerIs(s[PlaceOf(k) + 1], u[k] % 16);
    hide Print, Parse, DigitAt, NoOtherDash;
  }

  lemma LowerIs(c: char, i: nat)
    requires i < 16
    ensures Lower(c) == "0123456789abcdef"[i] ==> DigitAt(c, i)
  {
    PlaceIs(i);
    if i < 10 {
      assert Lower(c) == '0' + i as char ==> c == '0' + i as char;
    } else {
      assert Lower(c) == 'W' + i as char ==> c == 'W' + i as char || c == '7' + i as char;
    }
  }
}
