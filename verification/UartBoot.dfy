/** The UART boot protocol: the receiver of sw/apps/uart_bootloader/main.c as functions of the byte
    stream, and the sender's packet format (sw/tools/uart_loader.py). A receiver that needs more
    bytes than the stream has is blocked. */
module UartBoot {
  import opened Codecs

  type Memory = map<nat, Byte>

  const WORD: nat := 0x1_0000_0000
  const IMEM_BASE: nat := 0x4000
  const BOOT_END: nat := 0x8000
  const SRAM_BASE: nat := 0x1_0000
  const SRAM_END: nat := 0x1_4000

  predicate InWindow(a: nat) {
    IMEM_BASE <= a < BOOT_END || SRAM_BASE <= a < SRAM_END
  }

  // range_valid, in 32 bits
  predicate RangeValid(addr: nat, len: nat) {
    len == 0
    || (var end := (addr + len - 1) % WORD;
        end >= addr && ((addr >= IMEM_BASE && end < BOOT_END) || (addr >= SRAM_BASE && end < SRAM_END)))
  }

  // The wrap-around test is sound: a valid range lies in one window
  lemma RangeValidIff(addr: nat, len: nat)
    requires addr < WORD && len < WORD
    ensures RangeValid(addr, len) <==>
      len == 0 || (IMEM_BASE <= addr && addr + len <= BOOT_END) || (SRAM_BASE <= addr && addr + len <= SRAM_END)
  {
    if len > 0 && addr + len - 1 >= WORD {
      assert (addr + len - 1) % WORD == addr + len - 1 - WORD;
    }
  }

  // ----- Effects -----

  // The bytes p written from address a on
  function Stored(mem: Memory, a: nat, p: seq<Byte>): Memory {
    if p == [] then mem else Stored(mem, a, p[..|p| - 1])[a + |p| - 1 := p[|p| - 1]]
  }

  lemma {:induction false} StoredAt(mem: Memory, a: nat, p: seq<Byte>, x: nat)
    ensures if a <= x < a + |p| then x in Stored(mem, a, p) && Stored(mem, a, p)[x] == p[x - a]
            else (x in Stored(mem, a, p) <==> x in mem) && (x in mem ==> Stored(mem, a, p)[x] == mem[x])
    decreases |p|
  {
    if p != [] {
      StoredAt(mem, a, p[..|p| - 1], x);
    }
  }

  // Same contents outside the two windows
  ghost predicate SameOutside(m: Memory, n: Memory) {
    forall x: nat :: !InWindow(x) ==> (x in m <==> x in n) && (x in m ==> m[x] == n[x])
  }

  lemma {:induction false} StoredInside(mem: Memory, a: nat, len: nat, p: seq<Byte>)
    requires a < WORD && len < WORD && RangeValid(a, len) && |p| <= len
    ensures SameOutside(mem, Stored(mem, a, p))
  {
    hide Stored;
    RangeValidIff(a, len);
    forall x: nat | !InWindow(x)
      ensures (x in mem <==> x in Stored(mem, a, p)) && (x in mem ==> mem[x] == Stored(mem, a, p)[x])
    {
      StoredAt(mem, a, p, x);
    }
  }

  datatype Result =
    | Blocked(mem: Memory)
    | Back(rest: seq<Byte>, mem: Memory, code: nat)
    | Jump(target: nat, rest: seq<Byte>, mem: Memory)

  // ----- Binary packets -----

  // Bytes joined with shifts, lowest first
  function Join4(b0: Byte, b1: Byte, b2: Byte, b3: Byte): (r: nat)
    ensures r < WORD
  {
    (b0 as int) + 256 * (b1 as int) + 65536 * (b2 as int) + 16777216 * (b3 as int)
  }

  function Join2(lo: Byte, hi: Byte): (r: nat)
    ensures r < 65536
  {
    (lo as int) + 256 * (hi as int)
  }

  // read_u32_le at offset o
  function ReadU32(s: seq<Byte>, o: nat): (r: nat)
    requires o + 4 <= |s|
    ensures r < WORD
  {
    Join4(s[o], s[o + 1], s[o + 2], s[o + 3])
  }

  function Sum(p: seq<Byte>): nat {
    if p == [] then 0 else Sum(p[..|p| - 1]) + p[|p| - 1]
  }

  // jump_to: entry & ~1
  function Target(entry: nat): nat {
    entry - entry % 2
  }

  // The bytes after 'K', 'B', 'L' and '1'
  function AfterMagic(s: seq<Byte>, mem: Memory): Result {
    if |s| < 16 then Blocked(mem)
    else
      var dst, len, entry, sum := ReadU32(s, 0), ReadU32(s, 4), ReadU32(s, 8), ReadU32(s, 12);
      if !RangeValid(dst, len) || !RangeValid(entry, 1) then Back(s[16..], mem, 0x11)
      else if |s| < 16 + len then Blocked(Stored(mem, dst, s[16..]))
      else
        var p, rest := s[16..16 + len], s[16 + len..];
        if Sum(p) % WORD != sum then Back(rest, Stored(mem, dst, p), 0x13)
        else Jump(Target(entry), rest, Stored(mem, dst, p))
  }

  // handle_binary_packet: each byte of the magic is read only if the one before it was right
  function Binary(s: seq<Byte>, mem: Memory): Result {
    if |s| == 0 then Blocked(mem)
    else if s[0] != 'B' as int then Back(s[1..], mem, 0x10)
    else if |s| == 1 then Blocked(mem)
    else if s[1] != 'L' as int then Back(s[2..], mem, 0x10)
    else if |s| == 2 then Blocked(mem)
    else if s[2] != '1' as int then Back(s[3..], mem, 0x10)
    else AfterMagic(s[3..], mem)
  }

  // ----- Intel HEX -----

  predicate IsSpace(c: Byte) {
    c == ' ' as int || c == '\r' as int || c == '\n' as int || c == '\t' as int
  }

  function HexNibble(c: Byte): (r: int)
    ensures -1 <= r < 16
  {
    if '0' as int <= c <= '9' as int then c - '0' as int
    else if 'a' as int <= c <= 'f' as int then c - 'a' as int + 10
    else if 'A' as int <= c <= 'F' as int then c - 'A' as int + 10
    else -1
  }

  datatype Hex = HexOk(v: seq<Byte>, rest: seq<Byte>) | HexBad(rest: seq<Byte>) | HexShort

  // n calls of read_hex_byte, stopping at the first bad one
  function HexBytes(s: seq<Byte>, n: nat): (h: Hex)
    ensures h.HexOk? ==> |h.v| == n && |h.rest| + 2 * n == |s|
    ensures h.HexBad? ==> |h.rest| < |s|
  {
    if n == 0 then HexOk([], s)
    else if |s| < 2 then HexShort
    else if HexNibble(s[0]) < 0 || HexNibble(s[1]) < 0 then HexBad(s[2..])
    else
      var h := HexBytes(s[2..], n - 1);
      if h.HexOk? then HexOk([16 * HexNibble(s[0]) + HexNibble(s[1])] + h.v, h.rest) else h
  }

  // The variables of handle_ihex_stream that live across records
  datatype Hx = Hx(upper: nat, entry: nat, firstAddr: nat, entrySeen: bool, firstSeen: bool)

  const HX_START: Hx := Hx(0, 0, 0, false, false)

  predicate HxValid(h: Hx) {
    h.upper < WORD && h.upper % 65536 == 0 && h.entry < WORD && h.firstAddr < WORD
  }

  datatype Step = More(rest: seq<Byte>, mem: Memory, hx: Hx) | Done(result: Result)

  // A record whose checksum is right
  function Act(h: seq<Byte>, d: seq<Byte>, rest: seq<Byte>, mem: Memory, hx: Hx): (r: Step)
    requires |h| == 4 && |d| == h[0] && HxValid(hx)
    ensures r.More? ==> r.rest == rest && HxValid(r.hx)
  {
    hide Stored, RangeValid, Join4, Join2;
    var addr := hx.upper + Join2(h[2], h[1]);
    if h[3] == 0 then
      if !RangeValid(addr, h[0]) then Done(Back(rest, mem, 0x25))
      else More(rest, Stored(mem, addr, d), if hx.firstSeen then hx else hx.(firstAddr := addr, firstSeen := true))
    else if h[3] == 1 then
      var target := if hx.entrySeen then hx.entry else hx.firstAddr;
      if !hx.firstSeen || !RangeValid(target, 1) then Done(Back(rest, mem, 0x27))
      else Done(Jump(Target(target), rest, mem))
    else if h[3] == 4 then
      if h[0] != 2 then Done(Back(rest, mem, 0x28)) else More(rest, mem, hx.(upper := Join2(d[1], d[0]) * 65536))
    else if h[3] == 5 then
      if h[0] != 4 then Done(Back(rest, mem, 0x29))
      else More(rest, mem, hx.(entry := Join4(d[3], d[2], d[1], d[0]), entrySeen := true))
    else More(rest, mem, hx)
  }

  // One record after its colon
  function Record(s: seq<Byte>, mem: Memory, hx: Hx): (r: Step)
    requires HxValid(hx)
    ensures r.More? ==> |r.rest| < |s| && HxValid(r.hx)
  {
    match HexBytes(s, 4)
    case HexShort => Done(Blocked(mem))
    case HexBad(rest) => Done(Back(rest, mem, 0x21))
    case HexOk(h, r1) =>
      match HexBytes(r1, h[0])
      case HexShort => Done(Blocked(mem))
      case HexBad(rest) => Done(Back(rest, mem, 0x22))
      case HexOk(d, r2) =>
        match HexBytes(r2, 1)
        case HexShort => Done(Blocked(mem))
        case HexBad(rest) => Done(Back(rest, mem, 0x23))
        case HexOk(c, r3) =>
          if (Sum(h) + Sum(d) + c[0]) % 256 != 0 then Done(Back(r3, mem, 0x24)) else Act(h, d, r3, mem, hx)
  }

  // The bytes from the first one that is not a space
  function SkipSpaces(s: seq<Byte>): (r: seq<Byte>)
    ensures |r| <= |s|
  {
    if s == [] || !IsSpace(s[0]) then s else SkipSpaces(s[1..])
  }

  function Ihex(s: seq<Byte>, mem: Memory, hx: Hx, colonSeen: bool): Result
    requires HxValid(hx)
    decreases |s|, if colonSeen then 0 else 1
  {
    if colonSeen then
      match Record(s, mem, hx)
      case More(rest, m, h) => Ihex(rest, m, h, false)
      case Done(r) => r
    else
      var t := SkipSpaces(s);
      if t == [] then Blocked(mem)
      else if t[0] != ':' as int then Back(t[1..], mem, 0x20)
      else Ihex(t[1..], mem, hx, true)
  }

  // ----- The main loop -----

  datatype Outcome = Waiting(mem: Memory, codes: seq<nat>) | Started(target: nat, rest: seq<Byte>, mem: Memory,
    codes: seq<nat>)

  // How a handler's result continues
  predicate Shorter(r: Result, s: seq<Byte>) {
    r.Back? ==> |r.rest| <= |s|
  }

  lemma {:induction false} HandlersShorten(s: seq<Byte>, mem: Memory, hx: Hx, colonSeen: bool)
    requires HxValid(hx)
    ensures Shorter(Binary(s, mem), s) && Shorter(Ihex(s, mem, hx, colonSeen), s)
    decreases |s|, if colonSeen then 0 else 1
  {
    hide Stored, Sum, RangeValid, HexNibble;
    if colonSeen {
      var r := Record(s, mem, hx);
      RecordShortens(s, mem, hx);
      if r.More? {
        HandlersShorten(r.rest, r.mem, r.hx, false);
      }
    } else {
      var t := SkipSpaces(s);
      if t != [] && t[0] == ':' as int {
        HandlersShorten(t[1..], mem, hx, true);
      }
    }
  }

  lemma RecordShortens(s: seq<Byte>, mem: Memory, hx: Hx)
    requires HxValid(hx)
    ensures Record(s, mem, hx).Done? ==> Shorter(Record(s, mem, hx).result, s)
  {
    hide Stored, Sum, RangeValid, HexNibble, HexBytes;
  }

  function Boot(s: seq<Byte>, mem: Memory, codes: seq<nat>): Outcome
    decreases |s|
  {
    if s == [] then Waiting(mem, codes)
    else if IsSpace(s[0]) then Boot(s[1..], mem, codes)
    else if s[0] != 'K' as int && s[0] != ':' as int then Boot(s[1..], mem, codes + [0x01])
    else
      var r := if s[0] == 'K' as int then Binary(s[1..], mem) else Ihex(s[1..], mem, HX_START, true);
      HandlersShorten(s[1..], mem, HX_START, true);
      match r
      case Blocked(m) => Waiting(m, codes)
      case Jump(target, rest, m) => Started(target, rest, m, codes)
      case Back(rest, m, code) => Boot(rest, m, codes + [code])
  }

  // ----- Safety: every write is inside a window, every jump is into one -----

  predicate JumpOk(target: nat) {
    InWindow(target) && target % 2 == 0
  }

  ghost predicate Safe(r: Result, mem: Memory) {
    SameOutside(mem, r.mem) && (r.Jump? ==> JumpOk(r.target))
  }

  lemma TargetOk(entry: nat)
    requires entry < WORD && RangeValid(entry, 1)
    ensures JumpOk(Target(entry))
  {
    RangeValidIff(entry, 1);
  }

  lemma SameReflexive(m: Memory)
    ensures SameOutside(m, m)
  {
  }

  lemma SameTransitive(m: Memory, n: Memory, o: Memory)
    requires SameOutside(m, n) && SameOutside(n, o)
    ensures SameOutside(m, o)
  {
  }

  lemma {:induction false} BinarySafe(s: seq<Byte>, mem: Memory)
    ensures Safe(Binary(s, mem), mem)
  {
    hide Stored, Sum, RangeValid, SameOutside, JumpOk, ReadU32;
    SameReflexive(mem);
    if |s| >= 3 && |s[3..]| >= 16 {
      var t := s[3..];
      var dst, len, entry := ReadU32(t, 0), ReadU32(t, 4), ReadU32(t, 8);
      if RangeValid(dst, len) && RangeValid(entry, 1) {
        TargetOk(entry);
        StoredInside(mem, dst, len, if |t| < 16 + len then t[16..] else t[16..16 + len]);
      }
    }
  }

  lemma {:induction false} RecordSafe(s: seq<Byte>, mem: Memory, hx: Hx)
    requires HxValid(hx)
    ensures var r := Record(s, mem, hx); if r.More? then SameOutside(mem, r.mem) else Safe(r.result, mem)
  {
    hide HexBytes, Sum, Act, SameOutside;
    SameReflexive(mem);
    var a := HexBytes(s, 4);
    if a.HexOk? {
      var b := HexBytes(a.rest, a.v[0]);
      if b.HexOk? {
        var c := HexBytes(b.rest, 1);
        if c.HexOk? {
          ActSafe(a.v, b.v, c.rest, mem, hx);
        }
      }
    }
  }

  lemma {:induction false} ActSafe(h: seq<Byte>, d: seq<Byte>, rest: seq<Byte>, mem: Memory, hx: Hx)
    requires |h| == 4 && |d| == h[0] && HxValid(hx)
    ensures var r := Act(h, d, rest, mem, hx); if r.More? then SameOutside(mem, r.mem) else Safe(r.result, mem)
  {
    hide Stored, RangeValid, SameOutside, JumpOk;
    SameReflexive(mem);
    var addr := hx.upper + Join2(h[2], h[1]);
    assert addr < WORD;
    if h[3] == 0 && RangeValid(addr, h[0]) {
      StoredInside(mem, addr, h[0], d);
    } else if h[3] == 1 {
      var target := if hx.entrySeen then hx.entry else hx.firstAddr;
      if RangeValid(target, 1) {
        TargetOk(target);
      }
    }
  }

  lemma {:induction false} IhexSafe(s: seq<Byte>, mem: Memory, hx: Hx, colonSeen: bool)
    requires HxValid(hx)
    ensures Safe(Ihex(s, mem, hx, colonSeen), mem)
    decreases |s|, if colonSeen then 0 else 1
  {
    hide Record, SameOutside, JumpOk;
    SameReflexive(mem);
    if colonSeen {
      RecordSafe(s, mem, hx);
      var r := Record(s, mem, hx);
      if r.More? {
        IhexSafe(r.rest, r.mem, r.hx, false);
        SameTransitive(mem, r.mem, Ihex(r.rest, r.mem, r.hx, false).mem);
      }
    } else {
      var t := SkipSpaces(s);
      if t != [] && t[0] == ':' as int {
        IhexSafe(t[1..], mem, hx, true);
      }
    }
  }

  // Whatever arrives, nothing outside the two windows changes and only code inside them is started
  lemma {:induction false} BootSafe(s: seq<Byte>, mem: Memory, codes: seq<nat>)
    ensures SameOutside(mem, Boot(s, mem, codes).mem)
    ensures Boot(s, mem, codes).Started? ==> JumpOk(Boot(s, mem, codes).target)
    decreases |s|
  {
    hide Binary, Ihex, SameOutside, JumpOk, IsSpace;
    SameReflexive(mem);
    if s != [] {
      if IsSpace(s[0]) {
        BootSafe(s[1..], mem, codes);
      } else if s[0] != 'K' as int && s[0] != ':' as int {
        BootSafe(s[1..], mem, codes + [0x01]);
      } else {
        var r := if s[0] == 'K' as int then Binary(s[1..], mem) else Ihex(s[1..], mem, HX_START, true);
        BinarySafe(s[1..], mem);
        IhexSafe(s[1..], mem, HX_START, true);
        HandlersShorten(s[1..], mem, HX_START, true);
        if r.Back? {
          BootSafe(r.rest, r.mem, codes + [r.code]);
          SameTransitive(mem, r.mem, Boot(r.rest, r.mem, codes + [r.code]).mem);
        }
      }
    }
  }

  // ----- The sender -----

  // write_u32_le
  function U32Le(x: nat): (r: seq<Byte>)
    ensures |r| == 4
  {
    [x % 256, x / 256 % 256, x / 65536 % 256, x / 16777216 % 256]
  }

  // make_binary_packet
  function MakePacket(payload: seq<Byte>, dst: nat, entry: nat): seq<Byte> {
    ['K' as int, 'B' as int, 'L' as int, '1' as int]
    + U32Le(dst) + U32Le(|payload|) + U32Le(entry) + U32Le(Sum(payload) % WORD) + payload
  }

  lemma U32RoundTrip(x: nat)
    requires x < WORD
    ensures ReadU32(U32Le(x), 0) == x
  {
    var y := x / 256;
    var z := y / 256;
    assert x / 65536 == z && x / 16777216 == z / 256;
    assert x == x % 256 + 256 * y && y == y % 256 + 256 * z && z == z % 256 + 256 * (z / 256);
    assert z / 256 % 256 == z / 256;
    hide U32Le;
    Fields(x);
  }

  lemma Fields(x: nat)
    ensures ReadU32(U32Le(x), 0) == Join4(x % 256, x / 256 % 256, x / 65536 % 256, x / 16777216 % 256)
  {
    hide Join4;
  }

  lemma U32Unique(s: seq<Byte>, o: nat)
    requires o + 4 <= |s|
    ensures U32Le(ReadU32(s, o)) == s[o..o + 4]
  {
    Digits(s[o], s[o + 1], s[o + 2], s[o + 3]);
  }

  lemma Digits(a: Byte, b: Byte, c: Byte, d: Byte)
    ensures U32Le(Join4(a, b, c, d)) == [a, b, c, d]
  {
    var x := Join4(a, b, c, d);
    Digit(x, a, Join4(b, c, d, 0));
    Digit(Join4(b, c, d, 0), b, Join4(c, d, 0, 0));
    Digit(Join4(c, d, 0, 0), c, d);
    assert x / 65536 == x / 256 / 256 && x / 16777216 == x / 65536 / 256;
  }

  lemma Digit(x: int, d: Byte, rest: int)
    requires x == d + 256 * rest
    ensures x % 256 == d && x / 256 == rest
  {
  }

  // What the sender can be asked for
  predicate Sendable(payload: seq<Byte>, dst: nat, entry: nat) {
    dst < WORD && entry < WORD && |payload| < WORD && RangeValid(dst, |payload|) && RangeValid(entry, 1)
  }

  // jump_to rounds the entry point down to an even address
  lemma EvenTarget(entry: nat)
    ensures Target(entry) == entry / 2 * 2
  {
  }

  // The number in four bytes of q, lowest first
  predicate LittleEndian(q: seq<Byte>, o: nat, x: nat)
    requires o + 4 <= |q|
  {
    x == (q[o] as int) + 256 * (q[o + 1] as int) + 65536 * (q[o + 2] as int) + 16777216 * (q[o + 3] as int)
  }

  // A packet is KBL1, the four little-endian numbers destination, length, entry and byte sum, and the payload
  lemma {:induction false} PacketLayout(payload: seq<Byte>, dst: nat, entry: nat)
    requires dst < WORD && entry < WORD && |payload| < WORD
    ensures var q := MakePacket(payload, dst, entry);
      && |q| == 20 + |payload| && q[..4] == [0x4B, 0x42, 0x4C, 0x31] && q[20..] == payload
      && LittleEndian(q, 4, dst) && LittleEndian(q, 8, |payload|) && LittleEndian(q, 12, entry)
      && LittleEndian(q, 16, Sum(payload) % WORD)
  {
    hide U32Le, Sum;
    var q := MakePacket(payload, dst, entry);
    assert q == [0x4B, 0x42, 0x4C, 0x31]
      + (U32Le(dst) + U32Le(|payload|) + U32Le(entry) + U32Le(Sum(payload) % WORD) + payload);
    assert q[4..] == U32Le(dst) + U32Le(|payload|) + U32Le(entry) + U32Le(Sum(payload) % WORD) + payload;
    HeaderFields(q[4..], dst, |payload|, entry, Sum(payload) % WORD, payload);
  }

  // ----- Malformed packets -----

  const MAGIC: seq<Byte> := [0x42, 0x4C, 0x31]

  // The first wrong byte after K ends the packet
  lemma {:induction false} BadMagic(s: seq<Byte>, k: nat, mem: Memory)
    requires k < 3 && k < |s| && s[..k] == MAGIC[..k] && s[k] != MAGIC[k]
    ensures Binary(s, mem) == Back(s[k + 1..], mem, 0x10)
  {
    if k > 0 {
      assert s[0] == s[..k][0];
    }
    if k > 1 {
      assert s[1] == s[..k][1];
    }
  }

  // A destination or an entry point outside the windows is refused before any byte is stored
  lemma {:induction false} BadRange(dst: nat, len: nat, entry: nat, sum: nat, rest: seq<Byte>, mem: Memory)
    requires dst < WORD && len < WORD && entry < WORD && sum < WORD && !(RangeValid(dst, len) && RangeValid(entry, 1))
    ensures Binary(MAGIC + (U32Le(dst) + U32Le(len) + U32Le(entry) + U32Le(sum) + rest), mem) == Back(rest, mem, 0x11)
  {
    hide Stored, Sum, RangeValid, ReadU32, U32Le, Target;
    var t := U32Le(dst) + U32Le(len) + U32Le(entry) + U32Le(sum) + rest;
    assert (MAGIC + t)[3..] == t;
    HeaderFields(t, dst, len, entry, sum, rest);
  }

  // A wrong byte sum is noticed after the payload has been stored
  lemma {:induction false} BadSum(payload: seq<Byte>, dst: nat, entry: nat, sum: nat, rest: seq<Byte>, mem: Memory)
    requires Sendable(payload, dst, entry) && sum < WORD && sum != Sum(payload) % WORD
    ensures Binary(MAGIC + (U32Le(dst) + U32Le(|payload|) + U32Le(entry) + U32Le(sum) + (payload + rest)), mem)
      == Back(rest, Stored(mem, dst, payload), 0x13)
  {
    hide Stored, Sum, RangeValid, ReadU32, U32Le, Target;
    var t := U32Le(dst) + U32Le(|payload|) + U32Le(entry) + U32Le(sum) + (payload + rest);
    assert (MAGIC + t)[3..] == t;
    HeaderFields(t, dst, |payload|, entry, sum, payload + rest);
    assert t[16..16 + |payload|] == payload && t[16 + |payload|..] == rest;
  }

  // A packet lands: the payload is at its destination and the entry point is started
  lemma {:induction false} PacketLands(payload: seq<Byte>, dst: nat, entry: nat, rest: seq<Byte>, mem: Memory)
    requires Sendable(payload, dst, entry)
    ensures Binary((MakePacket(payload, dst, entry) + rest)[1..], mem) ==
        Jump(entry / 2 * 2, rest, Stored(mem, dst, payload))
  {
    hide Stored, Sum, RangeValid, ReadU32, U32Le, Target;
    EvenTarget(entry);
    var s := (MakePacket(payload, dst, entry) + rest)[1..];
    var t := s[3..];
    assert t == U32Le(dst) + U32Le(|payload|) + U32Le(entry) + U32Le(Sum(payload) % WORD) + payload + rest;
    HeaderFields(t, dst, |payload|, entry, Sum(payload) % WORD, payload + rest);
    assert t[16..16 + |payload|] == payload && t[16 + |payload|..] == rest;
  }

  // A number written after some bytes is read back from there
  lemma FieldAt(before: seq<Byte>, x: nat, after: seq<Byte>)
    requires x < WORD
    ensures ReadU32(before + U32Le(x) + after, |before|) == x
  {
    hide U32Le, ReadU32;
    var t, o := before + U32Le(x) + after, |before|;
    U32RoundTrip(x);
    ReadSlice(t, o);
    assert t[o..o + 4] == U32Le(x);
  }

  lemma {:induction false} HeaderFields(t: seq<Byte>, a: nat, b: nat, c: nat, d: nat, p: seq<Byte>)
    requires a < WORD && b < WORD && c < WORD && d < WORD
    requires t == U32Le(a) + U32Le(b) + U32Le(c) + U32Le(d) + p
    ensures |t| == 16 + |p| && t[16..] == p
    ensures ReadU32(t, 0) == a && ReadU32(t, 4) == b && ReadU32(t, 8) == c && ReadU32(t, 12) == d
  {
    hide U32Le, ReadU32;
    var x, y, z, w := U32Le(a), U32Le(b), U32Le(c), U32Le(d);
    FieldAt([], a, y + z + w + p);
    FieldAt(x, b, z + w + p);
    FieldAt(x + y, c, w + p);
    FieldAt(x + y + z, d, p);
    Regrouped(t, x, y, z, w, p);
  }

  lemma Regrouped(t: seq<Byte>, x: seq<Byte>, y: seq<Byte>, z: seq<Byte>, w: seq<Byte>, p: seq<Byte>)
    requires t == x + y + z + w + p && |x| == |y| == |z| == |w| == 4
    ensures t == [] + x + (y + z + w + p) && t == x + y + (z + w + p) && t == x + y + z + (w + p)
    ensures |t| == 16 + |p| && t[16..] == p
  {
  }

  lemma ReadSlice(t: seq<Byte>, o: nat)
    requires o + 4 <= |t|
    ensures ReadU32(t, o) == ReadU32(t[o..o + 4], 0)
  {
  }

  // The handler jumps exactly on what a sender can have produced: never before the checksum, never
  // on another byte string
  lemma {:induction false} JumpIff(s: seq<Byte>, mem: Memory)
    ensures Binary(s, mem).Jump? <==>
      |s| >= 19 && (var n := ReadU32(s, 7);
                    |s| >= 19 + n && Sendable(s[19..19 + n], ReadU32(s, 3), ReadU32(s, 11))
                    && ['K' as int] + s[..19 + n] == MakePacket(s[19..19 + n], ReadU32(s, 3), ReadU32(s, 11)))
    ensures Binary(s, mem).Jump? ==>
      Binary(s, mem) == Jump(ReadU32(s, 11) / 2 * 2, s[19 + ReadU32(s, 7)..],
                             Stored(mem, ReadU32(s, 3), s[19..19 + ReadU32(s, 7)]))
  {
    hide Stored, Sum, RangeValid, ReadU32, U32Le, Target;
    if |s| >= 19 {
      EvenTarget(ReadU32(s, 11));
      var t, n := s[3..], ReadU32(s, 7);
      Shifted(s, 0);
      Shifted(s, 4);
      Shifted(s, 8);
      Shifted(s, 12);
      if |s| >= 19 + n {
        var p := s[19..19 + n];
        assert t[16..16 + n] == p && t[16 + n..] == s[19 + n..];
        if Binary(s, mem).Jump? {
          PacketForm(s, n);
        }
        if ['K' as int] + s[..19 + n] == MakePacket(p, ReadU32(s, 3), ReadU32(s, 11)) {
          assert s[0] == (['K' as int] + s[..19 + n])[1] && s[1] == (['K' as int] + s[..19 + n])[2];
          assert s[2] == (['K' as int] + s[..19 + n])[3];
          ChecksumField(s, n, p);
        }
      }
    }
  }

  lemma Shifted(s: seq<Byte>, o: nat)
    requires o + 7 <= |s|
    ensures ReadU32(s[3..], o) == ReadU32(s, o + 3)
  {
  }

  // A string with the right magic and checksum is a packet
  lemma {:induction false} PacketForm(s: seq<Byte>, n: nat)
    requires |s| >= 19 + n && ReadU32(s, 7) == n
    requires s[0] == 'B' as int && s[1] == 'L' as int && s[2] == '1' as int
    requires ReadU32(s, 15) == Sum(s[19..19 + n]) % WORD
    ensures ['K' as int] + s[..19 + n] == MakePacket(s[19..19 + n], ReadU32(s, 3), ReadU32(s, 11))
  {
    hide Sum, ReadU32, U32Le;
    U32Unique(s, 3);
    U32Unique(s, 7);
    U32Unique(s, 11);
    U32Unique(s, 15);
    assert s[..19 + n] == [s[0], s[1], s[2]] + s[3..7] + s[7..11] + s[11..15] + s[15..19] + s[19..19 + n];
  }

  lemma {:induction false} ChecksumField(s: seq<Byte>, n: nat, p: seq<Byte>)
    requires |s| >= 19 + n && p == s[19..19 + n]
    requires ['K' as int] + s[..19 + n] == MakePacket(p, ReadU32(s, 3), ReadU32(s, 11))
    ensures ReadU32(s, 15) == Sum(p) % WORD
  {
    hide Sum, ReadU32, U32Le;
    var k := ['K' as int] + s[..19 + n];
    assert k[16..20] == U32Le(Sum(p) % WORD);
    assert k[16..20] == s[15..19];
    U32RoundTrip(Sum(p) % WORD);
    ReadSlice(s, 15);
  }

  // A stream of spaces, a packet and anything after it starts the payload
  lemma {:induction false} PacketBoots(spaces: seq<Byte>, payload: seq<Byte>, dst: nat, entry: nat, rest: seq<Byte>,
                                       mem: Memory, codes: seq<nat>)
    requires Sendable(payload, dst, entry) && forall i :: 0 <= i < |spaces| ==> IsSpace(spaces[i])
    ensures Boot(spaces + (MakePacket(payload, dst, entry) + rest), mem, codes)
         == Started(entry / 2 * 2, rest, Stored(mem, dst, payload), codes)
    decreases |spaces|
  {
    hide MakePacket, Binary, Stored, Sendable, Ihex;
    var packet := MakePacket(payload, dst, entry) + rest;
    var s := spaces + packet;
    if spaces == [] {
      assert s == packet;
      PacketLands(payload, dst, entry, rest, mem);
      StartsWithK(payload, dst, entry);
    } else {
      assert s[0] == spaces[0] && s[1..] == spaces[1..] + packet;
      PacketBoots(spaces[1..], payload, dst, entry, rest, mem, codes);
    }
  }

  lemma StartsWithK(payload: seq<Byte>, dst: nat, entry: nat)
    ensures |MakePacket(payload, dst, entry)| > 0 && MakePacket(payload, dst, entry)[0] == 'K' as int
  {
  }
}
