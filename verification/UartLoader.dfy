/** The boot loader itself (sw/apps/uart_bootloader/main.c): loops that receive bytes and write
    memory. Each handler is proved to do what the stream functions of UartBoot say; the second
    range check in front of every byte write, whose error codes those functions never report, is
    proved to succeed. */
module UartLoader {
  import opened Codecs
  import opened UartBoot

  // How a call ends: it needs another byte, it returned, or it jumped
  datatype Control = Blocks | Returns | Jumps(target: nat)

  datatype Received<T> = Some(value: T) | None

  class Loader {
    var input: seq<Byte>     // bytes not yet received
    var mem: Memory
    var codes: seq<nat>      // error codes reported

    constructor (stream: seq<Byte>, memory: Memory)
      ensures input == stream && mem == memory && codes == []
    {
      input, mem, codes := stream, memory, [];
    }

    // The object is where result r of a handler leaves it
    ghost predicate Reached(r: Result, c: Control, before: seq<nat>)
      reads this
    {
      match r
      case Blocked(m) => c == Blocks && mem == m && codes == before
      case Back(rest, m, code) => c == Returns && input == rest && mem == m && codes == before + [code]
      case Jump(target, rest, m) => c == Jumps(target) && input == rest && mem == m && codes == before
    }

    method RecvByte() returns (b: Received<Byte>)
      modifies `input
      ensures if old(input) == [] then b == None && input == []
              else b == Some(old(input)[0]) && input == old(input)[1..]
    {
      if input == [] {
        return None;
      }
      b := Some(input[0]);
      input := input[1..];
    }

    method ReportError(code: nat) returns (c: Control)
      modifies `codes
      ensures codes == old(codes) + [code] && c == Returns
    {
      codes := codes + [code];
      c := Returns;
    }

    // write_payload_byte: false where the code returns -1
    method WritePayloadByte(addr: nat, value: Byte) returns (ok: bool)
      modifies `mem
      ensures ok == RangeValid(addr, 1) && mem == if ok then old(mem)[addr := value] else old(mem)
    {
      ok := RangeValid(addr, 1);
      if ok {
        mem := mem[addr := value];
      }
    }

    method ReadU32Le() returns (r: Received<nat>)
      modifies `input
      ensures r.None? <==> |old(input)| < 4
      ensures r.Some? ==> r.value == ReadU32(old(input), 0) && input == old(input)[4..]
    {
      var bytes: seq<Byte> := [];
      for i := 0 to 4
        invariant |bytes| == i && |old(input)| >= i && bytes == old(input)[..i] && input == old(input)[i..]
      {
        var b := RecvByte();
        if b.None? {
          return None;
        }
        bytes := bytes + [b.value];
      }
      r := Some(Join4(bytes[0], bytes[1], bytes[2], bytes[3]));
    }

    // The four header words
    method ReadHeader() returns (r: Received<(nat, nat, nat, nat)>)
      modifies `input
      ensures r.None? <==> |old(input)| < 16
      ensures r.Some? ==>
        (var s := old(input);
         r.value == (ReadU32(s, 0), ReadU32(s, 4), ReadU32(s, 8), ReadU32(s, 12)) && input == s[16..])
    {
      var dst := ReadU32Le();
      if dst.None? { return None; }
      var len := ReadU32Le();
      if len.None? { return None; }
      var entry := ReadU32Le();
      if entry.None? { return None; }
      var sum := ReadU32Le();
      if sum.None? { return None; }
      r := Some((dst.value, len.value, entry.value, sum.value));
    }

    // One byte of the magic: Jumps is never the result
    method Magic(wanted: Byte) returns (c: Control, ok: bool)
      modifies `input, `codes
      ensures old(input) == [] ==> c == Blocks && !ok && codes == old(codes)
      ensures old(input) != [] ==> input == old(input)[1..] && ok == (old(input)[0] == wanted)
      ensures old(input) != [] ==> c == Returns && codes == if ok then old(codes) else old(codes) + [0x10]
    {
      var b := RecvByte();
      if b.None? {
        return Blocks, false;
      }
      if b.value != wanted {
        c := ReportError(0x10);
        return c, false;
      }
      return Returns, true;
    }

    method HandleBinaryPacket() returns (c: Control)
      modifies this
      ensures Reached(Binary(old(input), old(mem)), c, old(codes))
    {
      hide AfterMagic;
      var ok;
      c, ok := Magic('B' as int);
      if !ok { return; }
      c, ok := Magic('L' as int);
      if !ok { return; }
      c, ok := Magic('1' as int);
      if !ok { return; }
      assert input == old(input)[3..];
      c := HandlePayload();
    }

    method HandlePayload() returns (c: Control)
      modifies this
      ensures Reached(AfterMagic(old(input), old(mem)), c, old(codes))
    {
      hide Stored, Sum, RangeValid, ReadU32;
      ghost var s := input;
      var header := ReadHeader();
      if header.None? {
        return Blocks;
      }
      var (dst, len, entry, expected) := header.value;
      if !RangeValid(dst, len) || !RangeValid(entry, 1) {
        c := ReportError(0x11);
        return;
      }
      var actual := 0;
      StoredNone(mem, dst);
      assert s[16..16] == [];
      for i := 0 to len
        invariant 16 + i <= |s| && input == s[16 + i..] && codes == old(codes)
        invariant mem == Stored(old(mem), dst, s[16..16 + i]) && actual == Sum(s[16..16 + i]) % WORD
      {
        var b := RecvByte();
        if b.None? {
          assert s[16..16 + i] == s[16..];
          return Blocks;
        }
        actual := (actual + b.value) % WORD;
        StoredNext(old(mem), dst, s[16..16 + i], b.value);
        assert s[16..16 + i] + [b.value] == s[16..16 + (i + 1)];
        InRange(dst, len, i);
        var ok := WritePayloadByte((dst + i) % WORD, b.value);
        // error 0x12 is never reported
        if !ok {
          assert false;
        }
      }
      if actual != expected {
        c := ReportError(0x13);
        return;
      }
      c := Jumps(Target(entry));
    }

    // Both digits are received before either is looked at
    method ReadHexByte() returns (h: Hex)
      modifies `input
      ensures h == HexBytes(old(input), 1)
      ensures h.HexOk? || h.HexBad? ==> input == h.rest
    {
      hide HexNibble;
      ghost var s := input;
      OneHexByte(s);
      var hi := RecvByte();
      if hi.None? { return HexShort; }
      var lo := RecvByte();
      if lo.None? { return HexShort; }
      assert input == s[2..];
      if HexNibble(hi.value) < 0 || HexNibble(lo.value) < 0 {
        return HexBad(input);
      }
      h := HexOk([JoinNibbles(hi.value, lo.value)], input);
    }

    method ReadHexBytes(n: nat) returns (h: Hex)
      modifies `input
      ensures h == HexBytes(old(input), n)
      ensures h.HexOk? || h.HexBad? ==> input == h.rest
    {
      hide HexBytes;
      ghost var s := input;
      var data: seq<Byte> := [];
      NoHexBytes(s, n);
      for i := 0 to n
        invariant |data| == i && HexBytes(s, n) == Prepend(data, HexBytes(input, n - i))
      {
        NextHexByte(data, input, n - i);
        var b := ReadHexByte();
        if !b.HexOk? {
          return b;
        }
        data := data + b.v;
      }
      LastHexByte(data, input);
      h := HexOk(data, input);
    }

    // wait_ihex_colon; Returns is the code's 0 when ok and its -1 when not
    method WaitIhexColon(firstColonSeen: bool) returns (c: Control, ok: bool)
      modifies `input
      ensures firstColonSeen ==> c == Returns && ok && input == old(input)
      ensures !firstColonSeen ==>
        (var t := SkipSpaces(old(input));
         if t == [] then c == Blocks else c == Returns && input == t[1..] && ok == (t[0] == ':' as int))
    {
      if firstColonSeen {
        return Returns, true;
      }
      var b := RecvByte();
      while b.Some? && IsSpace(b.value)
        invariant b.None? ==> SkipSpaces(old(input)) == []
        invariant b.Some? ==> SkipSpaces([b.value] + input) == SkipSpaces(old(input))
        decreases |input|, b.Some?
      {
        SpaceSkipped(b.value, input);
        b := RecvByte();
      }
      if b.None? {
        return Blocks, false;
      }
      assert ([b.value] + input)[1..] == input;
      return Returns, b.value == ':' as int;
    }

    // The part of the loop of handle_ihex_stream after the colon; more: it goes round again
    method HandleRecord(hx: Hx) returns (c: Control, more: bool, next: Hx)
      requires HxValid(hx)
      modifies this
      ensures match Record(old(input), old(mem), hx)
        case More(rest, m, h) => more && next == h && input == rest && mem == m && codes == old(codes)
        case Done(r) => !more && Reached(r, c, old(codes))
    {
      hide HexBytes, Act, Sum;
      next, more := hx, false;
      var head := ReadHexBytes(4);
      if head.HexShort? { return Blocks, false, hx; }
      if head.HexBad? { c := ReportError(0x21); return; }
      var h := head.v;
      var body := ReadHexBytes(h[0]);
      if body.HexShort? { return Blocks, false, hx; }
      if body.HexBad? { c := ReportError(0x22); return; }
      var checksum := ReadHexByte();
      if checksum.HexShort? { return Blocks, false, hx; }
      if checksum.HexBad? { c := ReportError(0x23); return; }
      if (Sum(h) + Sum(body.v) + checksum.v[0]) % 256 != 0 { c := ReportError(0x24); return; }
      c, more, next := ActOn(h, body.v, hx);
    }

    method ActOn(h: seq<Byte>, d: seq<Byte>, hx: Hx) returns (c: Control, more: bool, next: Hx)
      requires |h| == 4 && |d| == h[0] && HxValid(hx)
      modifies `mem, `codes
      ensures match Act(h, d, input, old(mem), hx)
        case More(rest, m, n) => more && next == n && mem == m && codes == old(codes)
        case Done(r) => !more && Reached(r, c, old(codes))
    {
      hide Stored, RangeValid, Join4, Join2;
      c, more, next := Returns, false, hx;
      var addr := hx.upper + Join2(h[2], h[1]);
      if h[3] == 0 {
        if !RangeValid(addr, h[0]) { c := ReportError(0x25); return; }
        StoreData(addr, d);
        more := true;
        if !hx.firstSeen {
          next := hx.(firstAddr := addr, firstSeen := true);
        }
      } else if h[3] == 1 {
        var target := if hx.entrySeen then hx.entry else hx.firstAddr;
        if !hx.firstSeen || !RangeValid(target, 1) { c := ReportError(0x27); return; }
        c := Jumps(Target(target));
      } else if h[3] == 4 {
        if h[0] != 2 { c := ReportError(0x28); return; }
        next, more := hx.(upper := Join2(d[1], d[0]) * 65536), true;
      } else if h[3] == 5 {
        if h[0] != 4 { c := ReportError(0x29); return; }
        next, more := hx.(entry := Join4(d[3], d[2], d[1], d[0]), entrySeen := true), true;
      } else {
        more := true;
      }
    }

    method StoreData(addr: nat, d: seq<Byte>)
      requires addr < WORD && |d| < WORD && RangeValid(addr, |d|)
      modifies `mem
      ensures mem == Stored(old(mem), addr, d)
    {
      hide Stored, RangeValid;
      StoredNone(mem, addr);
      for i := 0 to |d|
        invariant mem == Stored(old(mem), addr, d[..i])
      {
        StoredNext(old(mem), addr, d[..i], d[i]);
        assert d[..i] + [d[i]] == d[..i + 1];
        InRange(addr, |d|, i);
        var ok := WritePayloadByte((addr + i) % WORD, d[i]);
        // error 0x26 is never reported
        if !ok {
          assert false;
        }
      }
      assert d[..|d|] == d;
    }

    method HandleIhexStream() returns (c: Control)
      modifies this
      ensures Reached(Ihex(old(input), old(mem), HX_START, true), c, old(codes))
    {
      hide Record;
      var hx, firstColonSeen := HX_START, true;
      while true
        invariant HxValid(hx) && codes == old(codes)
        invariant Ihex(input, mem, hx, firstColonSeen) == Ihex(old(input), old(mem), HX_START, true)
        decreases |input|, if firstColonSeen then 0 else 1
      {
        var ok;
        c, ok := WaitIhexColon(firstColonSeen);
        if c == Blocks { return; }
        if !ok { c := ReportError(0x20); return; }
        firstColonSeen := false;
        var more;
        c, more, hx := HandleRecord(hx);
        if !more { return; }
      }
    }

    // The loop of main
    method Run() returns (c: Control)
      modifies this
      ensures match Boot(old(input), old(mem), old(codes))
        case Waiting(m, k) => c == Blocks && mem == m && codes == k
        case Started(target, rest, m, k) => c == Jumps(target) && input == rest && mem == m && codes == k
    {
      hide Binary, Ihex, IsSpace;
      while true
        invariant Boot(input, mem, codes) == Boot(old(input), old(mem), old(codes))
        decreases |input|
      {
        var b := RecvByte();
        if b.None? { return Blocks; }
        HandlersShorten(input, mem, HX_START, true);
        if b.value == 'K' as int && !IsSpace(b.value) {
          c := HandleBinaryPacket();
          if c != Returns { return; }
        } else if b.value == ':' as int && !IsSpace(b.value) {
          c := HandleIhexStream();
          if c != Returns { return; }
        } else if !IsSpace(b.value) {
          c := ReportError(0x01);
        }
      }
    }
  }

  function JoinNibbles(hi: Byte, lo: Byte): Byte
    requires HexNibble(hi) >= 0 && HexNibble(lo) >= 0
  {
    16 * HexNibble(hi) + HexNibble(lo)
  }

  function Prepend(v: seq<Byte>, h: Hex): Hex {
    if h.HexOk? then HexOk(v + h.v, h.rest) else h
  }

  lemma OneHexByte(s: seq<Byte>)
    ensures HexBytes(s, 1) ==
      if |s| < 2 then HexShort
      else if HexNibble(s[0]) < 0 || HexNibble(s[1]) < 0 then HexBad(s[2..])
      else HexOk([JoinNibbles(s[0], s[1])], s[2..])
  {
    if |s| >= 2 {
      assert HexBytes(s[2..], 0) == HexOk([], s[2..]);
    }
  }

  lemma NoHexBytes(s: seq<Byte>, n: nat)
    ensures HexBytes(s, n) == Prepend([], HexBytes(s, n))
  {
    var h := HexBytes(s, n);
    if h.HexOk? {
      assert [] + h.v == h.v;
    }
  }

  lemma NextHexByte(data: seq<Byte>, s: seq<Byte>, n: nat)
    requires n > 0
    ensures var b := HexBytes(s, 1);
      Prepend(data, HexBytes(s, n)) == if b.HexOk? then Prepend(data + b.v, HexBytes(b.rest, n - 1)) else b
  {
    OneHexByte(s);
    var b := HexBytes(s, 1);
    if b.HexOk? {
      var h := HexBytes(b.rest, n - 1);
      if h.HexOk? {
        assert data + (b.v + h.v) == (data + b.v) + h.v;
      }
    }
  }

  lemma LastHexByte(data: seq<Byte>, s: seq<Byte>)
    ensures Prepend(data, HexBytes(s, 0)) == HexOk(data, s)
  {
    assert data + [] == data;
  }

  lemma SpaceSkipped(c: Byte, s: seq<Byte>)
    requires IsSpace(c)
    ensures SkipSpaces([c] + s) == SkipSpaces(s)
    ensures s != [] ==> [s[0]] + s[1..] == s
  {
    assert ([c] + s)[1..] == s;
  }

  lemma StoredNone(mem: Memory, a: nat)
    ensures Stored(mem, a, []) == mem && Sum([]) == 0
  {
  }

  lemma StoredNext(mem: Memory, a: nat, p: seq<Byte>, v: Byte)
    ensures Stored(mem, a, p + [v]) == Stored(mem, a, p)[a + |p| := v]
    ensures Sum(p + [v]) == Sum(p) + v
  {
    assert (p + [v])[..|p|] == p;
  }

  // Every byte of a valid range may be written
  lemma InRange(addr: nat, len: nat, i: nat)
    requires addr < WORD && len < WORD && RangeValid(addr, len) && i < len
    ensures (addr + i) % WORD == addr + i && RangeValid(addr + i, 1)
  {
    RangeValidIff(addr, len);
    RangeValidIff(addr + i, 1);
  }
}
