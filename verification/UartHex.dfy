/** The Intel HEX text format, and what the boot loader does with it: a document of data, segment, entry and other
    records ends in a jump with every payload at its address, and each kind of malformed record has its error code. */
module UartHex {
  import opened Codecs
  import opened UartBoot

  // ----- The format -----

  datatype Line =
    | Data(offset: nat, payload: seq<Byte>)
    | Segment(upper: nat)
    | Entry(address: nat)
    | Other(kind: Byte, offset: nat, payload: seq<Byte>)

  predicate WellFormed(l: Line) {
    match l
    case Data(o, p) => o < 65536 && |p| < 256
    case Segment(s) => s < 65536
    case Entry(a) => a < 0x1_0000_0000
    case Other(k, o, p) => k != 0 && k != 1 && k != 4 && k != 5 && o < 65536 && |p| < 256
  }

  // The bytes of a record before its checksum: count, address, type, data, numbers high byte first
  function Body(l: Line): (b: seq<Byte>)
    requires WellFormed(l)
    ensures |b| >= 4 && |b| - 4 == b[0]
  {
    match l
    case Data(o, p) => [|p|, o / 256, o % 256, 0] + p
    case Segment(s) => [2, 0, 0, 4, s / 256, s % 256]
    case Entry(a) => [4, 0, 0, 5, a / 0x100_0000, a / 65536 % 256, a / 256 % 256, a % 256]
    case Other(k, o, p) => [|p|, o / 256, o % 256, k] + p
  }

  const END_BODY: seq<Byte> := [0, 0, 0, 1]

  // The byte that makes the sum of all bytes of a record a multiple of 256
  function CheckByte(body: seq<Byte>): Byte {
    (256 - Sum(body) % 256) % 256
  }

  function HexChar(n: nat, lower: bool): Byte
    requires n < 16
  {
    if n < 10 then 48 + n else if lower then 87 + n else 55 + n
  }

  // Two digits a byte, the high one first
  function HexText(b: seq<Byte>, lower: bool): (t: seq<Byte>)
    ensures |t| == 2 * |b|
  {
    if b == [] then [] else [HexChar(b[0] / 16, lower), HexChar(b[0] % 16, lower)] + HexText(b[1..], lower)
  }

  const COLON: Byte := 58

  function RecordText(body: seq<Byte>, lower: bool): seq<Byte> {
    [COLON] + HexText(body + [CheckByte(body)], lower)
  }

  predicate Blank(gap: seq<Byte>) {
    forall i :: 0 <= i < |gap| ==> gap[i] == 32 || gap[i] == 13 || gap[i] == 10 || gap[i] == 9
  }

  // The records one after the other, gap between them
  function Records(ls: seq<Line>, gap: seq<Byte>, lower: bool): seq<Byte>
    requires forall l :: l in ls ==> WellFormed(l)
  {
    if ls == [] then [] else RecordText(Body(ls[0]), lower) + gap + Records(ls[1..], gap, lower)
  }

  function Document(ls: seq<Line>, gap: seq<Byte>, lower: bool): seq<Byte>
    requires forall l :: l in ls ==> WellFormed(l)
  {
    Records(ls, gap, lower) + RecordText(END_BODY, lower)
  }

  // ----- Its meaning -----

  datatype Option = None | Some(value: nat)

  datatype Load = Load(mem: Memory, segment: nat, entry: Option, first: Option)

  function Address(ld: Load, offset: nat): nat {
    65536 * ld.segment + offset
  }

  function Apply(ld: Load, l: Line): Load {
    match l
    case Data(o, p) =>
      var a := Address(ld, o);
      ld.(mem := Stored(ld.mem, a, p), first := if ld.first == None then Some(a) else ld.first)
    case Segment(s) => ld.(segment := s)
    case Entry(a) => ld.(entry := Some(a))
    case Other(_, _, _) => ld
  }

  function ApplyAll(ld: Load, ls: seq<Line>): Load
    decreases |ls|
  {
    if ls == [] then ld else ApplyAll(Apply(ld, ls[0]), ls[1..])
  }

  // The range lies in the instruction memory and boot windows or in the SRAM
  predicate InsideOne(a: nat, len: nat) {
    len == 0 || (0x4000 <= a && a + len <= 0x8000) || (0x1_0000 <= a && a + len <= 0x1_4000)
  }

  predicate Fits(ld: Load, l: Line) {
    l.Data? ==> InsideOne(Address(ld, l.offset), |l.payload|)
  }

  predicate AllFit(ld: Load, ls: seq<Line>)
    decreases |ls|
  {
    ls == [] || (Fits(ld, ls[0]) && AllFit(Apply(ld, ls[0]), ls[1..]))
  }

  function StartAddress(ld: Load): Option {
    if ld.entry.Some? then ld.entry else ld.first
  }

  // ----- Hexadecimal text -----

  predicate HexDigit(c: Byte) {
    48 <= c <= 57 || 65 <= c <= 70 || 97 <= c <= 102
  }

  lemma NibbleOfChar(n: nat, lower: bool)
    requires n < 16
    ensures HexNibble(HexChar(n, lower)) == n
  {
  }

  lemma NibbleIff(c: Byte)
    ensures HexNibble(c) >= 0 <==> HexDigit(c)
  {
  }

  // Reading back what was written
  lemma {:induction false} HexBytesOfText(b: seq<Byte>, lower: bool, rest: seq<Byte>)
    ensures HexBytes(HexText(b, lower) + rest, |b|) == HexOk(b, rest)
  {
    hide HexNibble, HexChar;
    var t := HexText(b, lower) + rest;
    if b == [] {
      assert t == rest;
    } else {
      NibbleOfChar(b[0] / 16, lower);
      NibbleOfChar(b[0] % 16, lower);
      assert t[2..] == HexText(b[1..], lower) + rest;
      HexBytesOfText(b[1..], lower, rest);
      assert 16 * (b[0] / 16) + b[0] % 16 == b[0];
      assert [b[0]] + b[1..] == b;
    }
  }

  // A pair that is not two digits stops the reading
  lemma {:induction false} HexBytesBad(b: seq<Byte>, lower: bool, c: Byte, d: Byte, rest: seq<Byte>, n: nat)
    requires |b| < n && !(HexDigit(c) && HexDigit(d))
    ensures HexBytes(HexText(b, lower) + [c, d] + rest, n) == HexBad(rest)
    decreases |b|
  {
    hide HexNibble, HexChar, HexDigit;
    NibbleIff(c);
    NibbleIff(d);
    var t := HexText(b, lower) + [c, d] + rest;
    if b == [] {
      assert t == [c, d] + rest && t[2..] == rest;
    } else {
      NibbleOfChar(b[0] / 16, lower);
      NibbleOfChar(b[0] % 16, lower);
      assert t[2..] == HexText(b[1..], lower) + [c, d] + rest;
      HexBytesBad(b[1..], lower, c, d, rest, n - 1);
    }
  }

  // ----- One record -----

  // The handler's variables after the lines that led to ld
  predicate Holds(ld: Load, hx: Hx) {
    && hx.upper == 65536 * ld.segment && ld.segment < 65536
    && hx.entrySeen == ld.entry.Some? && (ld.entry.Some? ==> hx.entry == ld.entry.value < WORD)
    && hx.firstSeen == ld.first.Some? && (ld.first.Some? ==> hx.firstAddr == ld.first.value < WORD)
    && HxValid(hx)
  }

  lemma {:induction false} SumAppend(a: seq<Byte>, b: seq<Byte>)
    ensures Sum(a + b) == Sum(a) + Sum(b)
    decreases |b|
  {
    if b == [] {
      assert a + b == a;
    } else {
      assert (a + b)[..|a + b| - 1] == a + b[..|b| - 1];
      SumAppend(a, b[..|b| - 1]);
    }
  }

  // What the handler has after the digits of a record: header, data and check byte
  lemma {:induction false} RecordOfText(h: seq<Byte>, d: seq<Byte>, c: Byte, lower: bool, rest: seq<Byte>, mem: Memory,
                                        hx: Hx)
    requires |h| == 4 && |d| == h[0] && HxValid(hx)
    ensures Record(HexText(h + d + [c], lower) + rest, mem, hx)
      == if (Sum(h + d) + c) % 256 != 0 then Done(Back(rest, mem, 0x24)) else Act(h, d, rest, mem, hx)
  {
    hide HexBytes, HexText, Sum, Act;
    var s := HexText(h + d + [c], lower) + rest;
    TextAppend(h + d, [c], lower);
    TextAppend(h, d, lower);
    assert s == HexText(h, lower) + (HexText(d, lower) + (HexText([c], lower) + rest));
    HexBytesOfText(h, lower, HexText(d, lower) + (HexText([c], lower) + rest));
    HexBytesOfText(d, lower, HexText([c], lower) + rest);
    HexBytesOfText([c], lower, rest);
    SumAppend(h, d);
  }

  lemma {:induction false} TextAppend(a: seq<Byte>, b: seq<Byte>, lower: bool)
    ensures HexText(a + b, lower) == HexText(a, lower) + HexText(b, lower)
    decreases |a|
  {
    hide HexChar;
    if a == [] {
      assert a + b == b;
    } else {
      assert (a + b)[1..] == a[1..] + b;
      TextAppend(a[1..], b, lower);
    }
  }

  lemma CheckOk(body: seq<Byte>)
    ensures (Sum(body) + CheckByte(body)) % 256 == 0
  {
    hide Sum;
  }

  lemma {:induction false} GoodRecord(h: seq<Byte>, d: seq<Byte>, lower: bool, rest: seq<Byte>, mem: Memory, hx: Hx)
    requires |h| == 4 && |d| == h[0] && HxValid(hx)
    ensures Record((RecordText(h + d, lower) + rest)[1..], mem, hx) == Act(h, d, rest, mem, hx)
  {
    hide Record, HexText, Sum, Act, CheckByte;
    CheckOk(h + d);
    RecordOfText(h, d, CheckByte(h + d), lower, rest, mem, hx);
    assert (RecordText(h + d, lower) + rest)[1..] == HexText(h + d + [CheckByte(h + d)], lower) + rest;
  }

  lemma Offset(o: nat)
    requires o < 65536
    ensures Join2(o % 256, o / 256) == o
  {
  }

  lemma Address4(a: nat)
    requires a < 0x1_0000_0000
    ensures Join4(a % 256, a / 256 % 256, a / 65536 % 256, a / 0x100_0000) == a
  {
    U32RoundTrip(a);
    Fields(a);
    assert a / 16777216 % 256 == a / 0x100_0000;
  }

  lemma InsideIff(a: nat, len: nat)
    requires a < WORD && len < WORD
    ensures RangeValid(a, len) <==> InsideOne(a, len)
  {
    RangeValidIff(a, len);
  }

  // The handler's step on a well-formed record that fits is the record's meaning
  lemma {:induction false} LineStep(l: Line, lower: bool, rest: seq<Byte>, ld: Load, hx: Hx) returns (next: Hx)
    requires WellFormed(l) && Holds(ld, hx) && Fits(ld, l)
    ensures Holds(Apply(ld, l), next)
    ensures Record((RecordText(Body(l), lower) + rest)[1..], ld.mem, hx) == More(rest, Apply(ld, l).mem, next)
  {
    hide Record, RecordText, Stored, RangeValid, Join4, Join2;
    var h, d := Body(l)[..4], Body(l)[4..];
    assert h + d == Body(l);
    GoodRecord(h, d, lower, rest, ld.mem, hx);
    match l
    case Data(o, p) =>
      assert d == p;
      Offset(o);
      InsideIff(Address(ld, o), |p|);
      next := if hx.firstSeen then hx else hx.(firstAddr := Address(ld, o), firstSeen := true);
    case Segment(s) =>
      Offset(s);
      next := hx.(upper := 65536 * s);
    case Entry(a) =>
      Address4(a);
      next := hx.(entry := a, entrySeen := true);
    case Other(k, o, p) =>
      next := hx;
  }

  // ----- A whole document -----

  lemma {:induction false} SkipGap(gap: seq<Byte>, s: seq<Byte>)
    requires Blank(gap)
    ensures SkipSpaces(gap + s) == SkipSpaces(s)
    decreases |gap|
  {
    if gap == [] {
      assert gap + s == s;
    } else {
      assert (gap + s)[1..] == gap[1..] + s && (gap + s)[0] == gap[0];
      SkipGap(gap[1..], s);
    }
  }

  lemma IhexGap(gap: seq<Byte>, s: seq<Byte>, mem: Memory, hx: Hx)
    requires Blank(gap) && HxValid(hx)
    ensures Ihex(gap + s, mem, hx, false) == Ihex(s, mem, hx, false)
  {
    hide Record, SkipSpaces, Blank;
    SkipGap(gap, s);
  }

  // The colon may have been received already
  lemma IhexColon(s: seq<Byte>, mem: Memory, hx: Hx)
    requires HxValid(hx) && s != [] && s[0] == COLON
    ensures Ihex(s, mem, hx, false) == Ihex(s[1..], mem, hx, true)
  {
    hide Record;
    assert SkipSpaces(s) == s;
  }

  lemma {:induction false} RecordsRun(ls: seq<Line>, gap: seq<Byte>, lower: bool, tail: seq<Byte>, ld: Load, hx: Hx)
    returns (out: Hx)
    requires (forall l :: l in ls ==> WellFormed(l)) && Blank(gap) && Holds(ld, hx) && AllFit(ld, ls)
    ensures Holds(ApplyAll(ld, ls), out)
    ensures Ihex(Records(ls, gap, lower) + tail, ld.mem, hx, false) == Ihex(tail, ApplyAll(ld, ls).mem, out, false)
    decreases |ls|
  {
    hide Record, RecordText, Body, Apply, Fits, Blank, WellFormed;
    if ls == [] {
      out := hx;
      assert Records(ls, gap, lower) + tail == tail;
    } else {
      var more := gap + (Records(ls[1..], gap, lower) + tail);
      var s := Records(ls, gap, lower) + tail;
      assert s == RecordText(Body(ls[0]), lower) + more;
      StartsWithColon(Body(ls[0]), lower, more);
      IhexColon(s, ld.mem, hx);
      var next := LineStep(ls[0], lower, more, ld, hx);
      IhexGap(gap, Records(ls[1..], gap, lower) + tail, Apply(ld, ls[0]).mem, next);
      out := RecordsRun(ls[1..], gap, lower, tail, Apply(ld, ls[0]), next);
    }
  }

  lemma StartsWithColon(body: seq<Byte>, lower: bool, rest: seq<Byte>)
    ensures RecordText(body, lower) + rest != [] && (RecordText(body, lower) + rest)[0] == COLON
  {
    hide HexText;
  }

  function Start(mem: Memory): Load {
    Load(mem, 0, None, None)
  }

  // The handler on a whole document jumps to its start address, rounded down to even, with every record's effect on
  // the memory done, and leaves what follows unread
  lemma {:induction false} DocumentLoads(ls: seq<Line>, gap: seq<Byte>, lower: bool, rest: seq<Byte>, mem: Memory)
    requires (forall l :: l in ls ==> WellFormed(l)) && Blank(gap) && AllFit(Start(mem), ls)
    requires var ld := ApplyAll(Start(mem), ls);
      ld.first.Some? && InsideOne(StartAddress(ld).value, 1)
    ensures var ld := ApplyAll(Start(mem), ls);
      Ihex((Document(ls, gap, lower) + rest)[1..], mem, HX_START, true)
      == Jump(StartAddress(ld).value / 2 * 2, rest, ld.mem)
  {
    hide Record, RecordText, Body, Apply, ApplyAll, AllFit, Blank, WellFormed, Ihex;
    var tail := RecordText(END_BODY, lower) + rest;
    var s := Document(ls, gap, lower) + rest;
    assert s == Records(ls, gap, lower) + tail;
    StartsWithColon(END_BODY, lower, rest);
    FirstColon(ls, gap, lower, tail);
    IhexColon(s, mem, HX_START);
    var hx := RecordsRun(ls, gap, lower, tail, Start(mem), HX_START);
    EndStep(lower, rest, ApplyAll(Start(mem), ls), hx);
  }

  lemma FirstColon(ls: seq<Line>, gap: seq<Byte>, lower: bool, tail: seq<Byte>)
    requires (forall l :: l in ls ==> WellFormed(l)) && tail != [] && tail[0] == COLON
    ensures var s := Records(ls, gap, lower) + tail; s != [] && s[0] == COLON
  {
    hide RecordText, Body, WellFormed;
    if ls != [] {
      StartsWithColon(Body(ls[0]), lower, []);
      assert RecordText(Body(ls[0]), lower) + [] == RecordText(Body(ls[0]), lower);
    } else {
      assert Records(ls, gap, lower) + tail == tail;
    }
  }

  lemma {:induction false} EndStep(lower: bool, rest: seq<Byte>, ld: Load, hx: Hx)
    requires Holds(ld, hx)
    ensures Ihex(RecordText(END_BODY, lower) + rest, ld.mem, hx, false)
      == if ld.first.Some? && InsideOne(StartAddress(ld).value, 1)
         then Jump(StartAddress(ld).value / 2 * 2, rest, ld.mem) else Back(rest, ld.mem, 0x27)
  {
    hide RecordText, RangeValid, Record, Target;
    var s := RecordText(END_BODY, lower) + rest;
    StartsWithColon(END_BODY, lower, rest);
    IhexColon(s, ld.mem, hx);
    assert END_BODY + [] == END_BODY;
    GoodRecord(END_BODY, [], lower, rest, ld.mem, hx);
    if ld.first.Some? {
      InsideIff(StartAddress(ld).value, 1);
      EvenTarget(StartAddress(ld).value);
    }
  }

  // Every byte of every data record is in memory at 65536 * segment + offset, unless a later record of the document
  // covers its address again
  lemma {:induction false} PayloadStored(ls: seq<Line>, ld: Load, k: nat, i: nat)
    requires k < |ls| && ls[k].Data? && i < |ls[k].payload|
    requires var a := Address(ApplyAll(ld, ls[..k]), ls[k].offset) + i;
      forall j :: k < j < |ls| && ls[j].Data? ==>
        !(0 <= a - Address(ApplyAll(ld, ls[..j]), ls[j].offset) < |ls[j].payload|)
    ensures var a, m := Address(ApplyAll(ld, ls[..k]), ls[k].offset) + i, ApplyAll(ld, ls).mem;
      a in m && m[a] == ls[k].payload[i]
    decreases |ls|
  {
    hide Stored;
    var last := |ls| - 1;
    var before := ApplyAll(ld, ls[..last]);
    LastLine(ld, ls);
    var a := Address(ApplyAll(ld, ls[..k]), ls[k].offset) + i;
    if ls[last].Data? {
      StoredAt(before.mem, Address(before, ls[last].offset), ls[last].payload, a);
    }
    if k < last {
      Prefixes(ls);
      PayloadStored(ls[..last], ld, k, i);
    }
  }

  lemma Prefixes(ls: seq<Line>)
    requires ls != []
    ensures forall j :: 0 <= j < |ls| ==> ls[..|ls| - 1][..j] == ls[..j]
  {
  }

  lemma {:induction false} LastLine(ld: Load, ls: seq<Line>)
    requires ls != []
    ensures ApplyAll(ld, ls) == Apply(ApplyAll(ld, ls[..|ls| - 1]), ls[|ls| - 1])
    decreases |ls|
  {
    hide Apply;
    if |ls| > 1 {
      LastLine(Apply(ld, ls[0]), ls[1..]);
      assert ls[1..][..|ls| - 2] == ls[..|ls| - 1][1..];
    } else {
      assert ls[..0] == [];
    }
  }

  // ----- Malformed records -----

  datatype Fault =
    | BadHeader(header: seq<Byte>, c: Byte, d: Byte)
    | BadData(header: seq<Byte>, data: seq<Byte>, c: Byte, d: Byte)
    | BadCheck(header: seq<Byte>, data: seq<Byte>, c: Byte, d: Byte)
    | WrongSum(header: seq<Byte>, data: seq<Byte>, check: Byte)
    | OutOfWindow(offset: nat, data: seq<Byte>)
    | EarlyEnd(header: seq<Byte>, data: seq<Byte>)
    | BadSegment(header: seq<Byte>, data: seq<Byte>)
    | BadEntry(header: seq<Byte>, data: seq<Byte>)

  predicate NotDigits(c: Byte, d: Byte) {
    !(HexDigit(c) && HexDigit(d))
  }

  predicate Header(h: seq<Byte>, d: seq<Byte>) {
    |h| == 4 && |d| == h[0]
  }

  // The record is malformed in the way it says, when it arrives in state ld
  predicate Occurs(f: Fault, ld: Load) {
    match f
    case BadHeader(h, c, d) => |h| < 4 && NotDigits(c, d)
    case BadData(h, b, c, d) => |h| == 4 && |b| < h[0] && NotDigits(c, d)
    case BadCheck(h, b, c, d) => Header(h, b) && NotDigits(c, d)
    case WrongSum(h, b, c) => Header(h, b) && c != CheckByte(h + b)
    case OutOfWindow(o, b) => o < 65536 && |b| < 256 && !InsideOne(Address(ld, o), |b|)
    case EarlyEnd(h, b) => Header(h, b) && h[3] == 1 && !(ld.first.Some? && InsideOne(StartAddress(ld).value, 1))
    case BadSegment(h, b) => Header(h, b) && h[3] == 4 && |b| != 2
    case BadEntry(h, b) => Header(h, b) && h[3] == 5 && |b| != 4
  }

  // The text of the record after its colon
  function FaultText(f: Fault, lower: bool): seq<Byte> {
    match f
    case BadHeader(h, c, d) => HexText(h, lower) + [c, d]
    case BadData(h, b, c, d) => HexText(h + b, lower) + [c, d]
    case BadCheck(h, b, c, d) => HexText(h + b, lower) + [c, d]
    case WrongSum(h, b, c) => HexText(h + b + [c], lower)
    case OutOfWindow(o, b) => RecordDigits([|b| % 256, o / 256 % 256, o % 256, 0] + b, lower)
    case EarlyEnd(h, b) => RecordDigits(h + b, lower)
    case BadSegment(h, b) => RecordDigits(h + b, lower)
    case BadEntry(h, b) => RecordDigits(h + b, lower)
  }

  function RecordDigits(body: seq<Byte>, lower: bool): seq<Byte> {
    HexText(body + [CheckByte(body)], lower)
  }

  function FaultCode(f: Fault): nat {
    match f
    case BadHeader(_, _, _) => 0x21
    case BadData(_, _, _, _) => 0x22
    case BadCheck(_, _, _, _) => 0x23
    case WrongSum(_, _, _) => 0x24
    case OutOfWindow(_, _) => 0x25
    case EarlyEnd(_, _) => 0x27
    case BadSegment(_, _) => 0x28
    case BadEntry(_, _) => 0x29
  }

  lemma {:induction false} DigitFault(f: Fault, lower: bool, rest: seq<Byte>, ld: Load, hx: Hx)
    requires HxValid(hx) && Occurs(f, ld) && (f.BadHeader? || f.BadData? || f.BadCheck?)
    ensures Record(FaultText(f, lower) + rest, ld.mem, hx) == Done(Back(rest, ld.mem, FaultCode(f)))
  {
    hide HexBytes, HexText, Sum, Act, HexDigit;
    match f
    case BadHeader(h, c, d) => HexBytesBad(h, lower, c, d, rest, 4);
    case BadData(h, b, c, d) =>
      TextAppend(h, b, lower);
      assert HexText(h + b, lower) + [c, d] + rest == HexText(h, lower) + (HexText(b, lower) + [c, d] + rest);
      HexBytesOfText(h, lower, HexText(b, lower) + [c, d] + rest);
      HexBytesBad(b, lower, c, d, rest, h[0]);
    case BadCheck(h, b, c, d) =>
      TextAppend(h, b, lower);
      NoText(lower);
      var tail := HexText([], lower) + [c, d] + rest;
      assert HexText(h + b, lower) + [c, d] + rest == HexText(h, lower) + (HexText(b, lower) + tail);
      HexBytesOfText(h, lower, HexText(b, lower) + tail);
      HexBytesOfText(b, lower, tail);
      HexBytesBad([], lower, c, d, rest, 1);
  }

  lemma NoText(lower: bool)
    ensures HexText([], lower) == []
  {
  }

  lemma CheckUnique(body: seq<Byte>, c: Byte)
    requires (Sum(body) + c) % 256 == 0
    ensures c == CheckByte(body)
  {
    hide Sum;
  }

  lemma {:induction false} ContentFault(f: Fault, lower: bool, rest: seq<Byte>, ld: Load, hx: Hx)
    requires Holds(ld, hx) && Occurs(f, ld) && !(f.BadHeader? || f.BadData? || f.BadCheck?)
    ensures Record(FaultText(f, lower) + rest, ld.mem, hx) == Done(Back(rest, ld.mem, FaultCode(f)))
  {
    hide Record, HexText, Sum, RangeValid, Join2, Join4, Stored, CheckByte, Target;
    match f
    case WrongSum(h, b, c) =>
      RecordOfText(h, b, c, lower, rest, ld.mem, hx);
      if (Sum(h + b) + c) % 256 == 0 {
        CheckUnique(h + b, c);
      }
    case OutOfWindow(o, b) =>
      var h: seq<Byte> := [|b|, o / 256, o % 256, 0];
      CheckOk(h + b);
      RecordOfText(h, b, CheckByte(h + b), lower, rest, ld.mem, hx);
      Offset(o);
      InsideIff(Address(ld, o), |b|);
    case EarlyEnd(h, b) =>
      CheckOk(h + b);
      RecordOfText(h, b, CheckByte(h + b), lower, rest, ld.mem, hx);
      if ld.first.Some? {
        InsideIff(StartAddress(ld).value, 1);
      }
    case BadSegment(h, b) =>
      CheckOk(h + b);
      RecordOfText(h, b, CheckByte(h + b), lower, rest, ld.mem, hx);
    case BadEntry(h, b) =>
      CheckOk(h + b);
      RecordOfText(h, b, CheckByte(h + b), lower, rest, ld.mem, hx);
  }

  // After any records that fit, a malformed one ends the transfer with its code; the records before it stay loaded
  // and the bytes after it are left to the main loop
  lemma {:induction false} FaultReported(ls: seq<Line>, gap: seq<Byte>, lower: bool, f: Fault, rest: seq<Byte>,
                                         mem: Memory)
    requires (forall l :: l in ls ==> WellFormed(l)) && Blank(gap) && AllFit(Start(mem), ls)
    requires Occurs(f, ApplyAll(Start(mem), ls))
    ensures Ihex((Records(ls, gap, lower) + [COLON] + FaultText(f, lower) + rest)[1..], mem, HX_START, true)
      == Back(rest, ApplyAll(Start(mem), ls).mem, FaultCode(f))
  {
    hide Record, Body, Apply, ApplyAll, AllFit, Blank, WellFormed, Ihex, FaultText, FaultCode, Occurs;
    var tail := [COLON] + FaultText(f, lower) + rest;
    var s := Records(ls, gap, lower) + [COLON] + FaultText(f, lower) + rest;
    assert s == Records(ls, gap, lower) + tail;
    FirstColon(ls, gap, lower, tail);
    IhexColon(s, mem, HX_START);
    var ld := ApplyAll(Start(mem), ls);
    var hx := RecordsRun(ls, gap, lower, tail, Start(mem), HX_START);
    IhexColon(tail, ld.mem, hx);
    assert tail[1..] == FaultText(f, lower) + rest;
    if f.BadHeader? || f.BadData? || f.BadCheck? {
      DigitFault(f, lower, rest, ld, hx);
    } else {
      ContentFault(f, lower, rest, ld, hx);
    }
    IhexStops(FaultText(f, lower) + rest, ld.mem, hx, Back(rest, ld.mem, FaultCode(f)));
  }

  lemma IhexStops(s: seq<Byte>, mem: Memory, hx: Hx, r: Result)
    requires HxValid(hx) && Record(s, mem, hx) == Done(r)
    ensures Ihex(s, mem, hx, true) == r
  {
    hide Record;
  }

  // Anything else than a colon or a blank where a record should start is error 0x20
  lemma {:induction false} NoColonReported(ls: seq<Line>, gap: seq<Byte>, lower: bool, c: Byte, rest: seq<Byte>,
                                           mem: Memory)
    requires ls != [] && (forall l :: l in ls ==> WellFormed(l)) && Blank(gap) && AllFit(Start(mem), ls)
    requires c != COLON && !Blank([c])
    ensures Ihex((Records(ls, gap, lower) + [c] + rest)[1..], mem, HX_START, true)
      == Back(rest, ApplyAll(Start(mem), ls).mem, 0x20)
  {
    hide Record, RecordText, Body, Apply, ApplyAll, AllFit, WellFormed, Ihex;
    var s := Records(ls, gap, lower) + [c] + rest;
    assert s == Records(ls, gap, lower) + ([c] + rest);
    StartsWithColon(Body(ls[0]), lower, gap + Records(ls[1..], gap, lower) + [c] + rest);
    assert s == RecordText(Body(ls[0]), lower) + (gap + Records(ls[1..], gap, lower) + [c] + rest);
    IhexColon(s, mem, HX_START);
    var hx := RecordsRun(ls, gap, lower, [c] + rest, Start(mem), HX_START);
    IhexNoColon(c, rest, ApplyAll(Start(mem), ls).mem, hx);
  }

  lemma IhexNoColon(c: Byte, rest: seq<Byte>, mem: Memory, hx: Hx)
    requires HxValid(hx) && c != COLON && !Blank([c])
    ensures Ihex([c] + rest, mem, hx, false) == Back(rest, mem, 0x20)
  {
    hide Record;
    assert ([c] + rest)[1..] == rest;
    assert [c][0] == c;
  }

  // Through the main loop: blanks, a document and anything after it start the program
  lemma {:induction false} DocumentBoots(blanks: seq<Byte>, ls: seq<Line>, gap: seq<Byte>, lower: bool, rest: seq<Byte>,
                                         mem: Memory, codes: seq<nat>)
    requires (forall l :: l in ls ==> WellFormed(l)) && Blank(gap) && Blank(blanks) && AllFit(Start(mem), ls)
    requires var ld := ApplyAll(Start(mem), ls);
      ld.first.Some? && InsideOne(StartAddress(ld).value, 1)
    ensures var ld := ApplyAll(Start(mem), ls);
      Boot(blanks + (Document(ls, gap, lower) + rest), mem, codes)
      == Started(StartAddress(ld).value / 2 * 2, rest, ld.mem, codes)
    decreases |blanks|
  {
    hide Document, Binary, Ihex, ApplyAll, AllFit, WellFormed, RecordText;
    var text := Document(ls, gap, lower) + rest;
    var s := blanks + text;
    if blanks == [] {
      assert s == text;
      DocumentLoads(ls, gap, lower, rest, mem);
      DocumentColon(ls, gap, lower, rest);
    } else {
      assert s[0] == blanks[0] && s[1..] == blanks[1..] + text;
      DocumentBoots(blanks[1..], ls, gap, lower, rest, mem, codes);
    }
  }

  lemma DocumentColon(ls: seq<Line>, gap: seq<Byte>, lower: bool, rest: seq<Byte>)
    requires forall l :: l in ls ==> WellFormed(l)
    ensures var s := Document(ls, gap, lower) + rest; s != [] && s[0] == COLON
  {
    hide RecordText, WellFormed;
    var tail := RecordText(END_BODY, lower) + rest;
    StartsWithColon(END_BODY, lower, rest);
    FirstColon(ls, gap, lower, tail);
    assert Document(ls, gap, lower) + rest == Records(ls, gap, lower) + tail;
  }
}
