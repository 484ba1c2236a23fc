/** For every 768-byte ciphertext the unpack engine writes exactly the 384 coefficient pairs of
    unpack_ciphertext, never holds more than 128 bits, crosses from u to v with nothing left over
    or in flight, and is done within a fixed number of cycles. */
module RtlUnpackerProof {
  import opened Division
  import opened ModQ
  import opened Zetas
  import opened Codecs
  import opened Packing
  import opened Compression
  import opened RejSample
  import opened BitStream
  import opened RtlUnpacker

  // The synchronous ciphertext memory, by byte address
  type Memory = nat -> nat

  ghost predicate Stores(mem: Memory, ct: seq<Byte>) {
    |ct| == 768 && forall i :: 0 <= i < 96 ==> mem(8 * i) == ValueOf(ct[8 * i..8 * i + 8])
  }

  // The engine, the memory's output register, and the writes seen so far
  datatype System = System(eng: Engine, dout: nat, log: seq<Write>)

  function Cycle(s: System, mem: Memory, start: bool): System {
    var e := Tick(s.eng, false, start, s.dout);
    System(e, mem(s.eng.rd.raddr), if e.out.we then s.log + [e.out] else s.log)
  }

  // ----- The reader -----

  function Flights(r: Reader): nat {
    (if r.v0 then 1 else 0) + (if r.v1 then 1 else 0)
  }

  // The buffer holds the stream s from bit pos; what is in flight follows it
  predicate ReaderOk(r: Reader, dout: nat, s: nat, pos: nat, end: nat) {
    && pos + r.count + 64 * Flights(r) == 8 * r.readAddr && r.readAddr % 8 == 0 && r.readAddr <= end <= 768
    && r.count + 64 * Flights(r) <= 128
    && r.buf == Slice(s, pos, r.count)
    && (r.v1 ==> dout == Slice(s, pos + r.count, 64))
    && (r.v0 ==> r.raddr == r.readAddr - 8)
  }

  lemma {:induction false} StreamIs(r: Reader, dout: nat, s: nat, pos: nat, end: nat)
    requires ReaderOk(r, dout, s, pos, end)
    ensures StreamCount(r) == r.count + (if r.v1 then 64 else 0) <= 128
    ensures StreamBuf(r, dout) == Slice(s, pos, StreamCount(r))
  {
    hide Two, Slice;
    if r.v1 {
      SliceJoin(s, pos, r.count, 64);
      SliceBound(s, pos, r.count + 64);
      TwoMonotone(r.count + 64, 128);
      SmallRemainder(Slice(s, pos, r.count + 64), Two(128));
    }
  }

  lemma {:induction false} WordIs(mem: Memory, ct: seq<Byte>, a: nat)
    requires Stores(mem, ct) && a % 8 == 0 && a < 768
    ensures mem(a) == Slice(ValueOf(ct), 8 * a, 64)
  {
    hide Slice, ValueOf;
    assert a == 8 * (a / 8);
    SliceBytes(ct, a, 8);
  }

  predicate Next(r: Reader, n: Reader, dout: nat, end: nat) {
    || n == Reader(n.buf, n.count, r.readAddr, r.raddr, false, r.v0)
    || (!r.v0 && r.readAddr < end && n.count <= 64
        && n == Reader(n.buf, n.count, r.readAddr + 8, r.readAddr, true, r.v0))
  }

  // Whether or not a read is issued, a reader that consumed width bits is in order
  lemma {:induction false} ReaderNext(r: Reader, n: Reader, dout: nat, mem: Memory, ct: seq<Byte>, pos: nat,
    width: nat, end: nat)
    requires ReaderOk(r, dout, ValueOf(ct), pos, end) && Stores(mem, ct) && end % 8 == 0 && Next(r, n, dout, end)
    requires n.count + width == StreamCount(r) && n.buf == Slice(ValueOf(ct), pos + width, n.count)
    ensures ReaderOk(n, mem(r.raddr), ValueOf(ct), pos + width, end)
  {
    hide Slice, ValueOf, Stores;
    StreamIs(r, dout, ValueOf(ct), pos, end);
    if r.v0 {
      WordIs(mem, ct, r.raddr);
    }
  }

  lemma {:induction false} StarvedOk(r: Reader, dout: nat, mem: Memory, ct: seq<Byte>, pos: nat, end: nat)
    requires ReaderOk(r, dout, ValueOf(ct), pos, end) && Stores(mem, ct) && end % 8 == 0 && StreamCount(r) < 20
    ensures ReaderOk(Starved(r, dout, end), mem(r.raddr), ValueOf(ct), pos, end)
  {
    hide Slice, ValueOf, Stores, StreamBuf;
    StreamIs(r, dout, ValueOf(ct), pos, end);
    ReaderNext(r, Starved(r, dout, end), dout, mem, ct, pos, 0, end);
  }

  lemma {:induction false} PoppedOk(r: Reader, dout: nat, mem: Memory, ct: seq<Byte>, pos: nat, width: nat, end: nat)
    requires ReaderOk(r, dout, ValueOf(ct), pos, end) && Stores(mem, ct) && end % 8 == 0 && StreamCount(r) >= width
    ensures ReaderOk(Popped(r, dout, width, end), mem(r.raddr), ValueOf(ct), pos + width, end)
    ensures StreamBuf(r, dout) % Two(width) == Slice(ValueOf(ct), pos, width)
  {
    hide Slice, ValueOf, Stores, StreamBuf, Two;
    StreamIs(r, dout, ValueOf(ct), pos, end);
    SliceDrop(ValueOf(ct), pos, width, StreamCount(r) - width);
    ReaderNext(r, Popped(r, dout, width, end), dout, mem, ct, pos, width, end);
  }

  // ----- The writes -----

  // Write number i of a run over the stream s
  function Expected(s: nat, i: nat): Write {
    if i < 256 then Write(true, 4 + i / 128 % 2, i % 128, LaneDu(Slice(s, 20 * i, 10)),
      LaneDu(Slice(s, 20 * i + 10, 10)))
    else
      var j := i - 256;
      Write(true, 6, j % 128, LaneDv(Slice(s, 5120 + 8 * j, 4)), LaneDv(Slice(s, 5120 + 8 * j + 4, 4)))
  }

  predicate LogOk(log: seq<Write>, s: nat) {
    forall i :: 0 <= i < |log| ==> log[i] == Expected(s, i)
  }

  predicate Inv(s: System, ct: seq<Byte>) {
    && LogOk(s.log, ValueOf(ct))
    && match s.eng.state
       case IDLE => false
       case U_RUN =>
         s.eng.uPair < 256 && |s.log| == s.eng.uPair && ReaderOk(s.eng.rd, s.dout, ValueOf(ct), 20 * s.eng.uPair, 640)
       case V_RUN =>
         s.eng.vPair < 128 && |s.log| == 256 + s.eng.vPair
         && ReaderOk(s.eng.rd, s.dout, ValueOf(ct), 5120 + 8 * s.eng.vPair, 768)
       case DONE => |s.log| == 384 && s.eng.rd.count == 0 && Flights(s.eng.rd) == 0
  }

  lemma LogPush(log: seq<Write>, s: nat)
    requires LogOk(log, s)
    ensures LogOk(log + [Expected(s, |log|)], s)
  {
    hide Expected;
  }

  lemma {:induction false} UWriteIs(e: Engine, dout: nat, s: nat)
    requires e.uPair < 256 && StreamBuf(e.rd, dout) % Two(20) == Slice(s, 20 * e.uPair, 20)
    ensures UWrite(e, dout) == Expected(s, e.uPair)
  {
    hide Two, Slice, LaneDu, StreamBuf;
    SliceDrop(s, 20 * e.uPair, 10, 10);
  }

  lemma {:induction false} VWriteIs(e: Engine, dout: nat, s: nat)
    requires e.vPair < 128 && StreamBuf(e.rd, dout) % Two(8) == Slice(s, 5120 + 8 * e.vPair, 8)
    ensures VWrite(e, dout) == Expected(s, 256 + e.vPair)
  {
    hide Two, Slice, LaneDv, StreamBuf;
    SliceDrop(s, 5120 + 8 * e.vPair, 4, 4);
  }

  // The last u pair uses the last bits of the last u word
  lemma UPhaseDrains(r: Reader, dout: nat, s: nat)
    requires ReaderOk(r, dout, s, 5100, 640) && StreamCount(r) >= 20
    ensures StreamCount(r) == 20 && !r.v0 && r.readAddr == 640
  {
    hide Slice;
  }

  // The log and the reader after an edge in a run state
  lemma {:induction false} LogKeeps(s: System, t: System, v: nat, w: Write)
    requires LogOk(s.log, v) && w == Expected(v, |s.log|) && w.we
    requires t.log == s.log + [w]
    ensures LogOk(t.log, v) && |t.log| == |s.log| + 1
  {
    LogPush(s.log, v);
  }

  lemma {:induction false} UStarves(s: System, mem: Memory, start: bool, ct: seq<Byte>)
    requires Inv(s, ct) && Stores(mem, ct) && s.eng.state == U_RUN && StreamCount(s.eng.rd) < 20
    ensures Inv(Cycle(s, mem, start), ct)
  {
    hide ValueOf, Stores, LogOk, StreamBuf, StreamCount, Starved, Popped, UWrite, VWrite, Expected, ReaderOk, Two;
    StarvedOk(s.eng.rd, s.dout, mem, ct, 20 * s.eng.uPair, CT_V_BASE);
  }

  lemma {:induction false} UTakes(s: System, mem: Memory, start: bool, ct: seq<Byte>)
    requires Inv(s, ct) && Stores(mem, ct) && s.eng.state == U_RUN && StreamCount(s.eng.rd) >= 20
    ensures Inv(Cycle(s, mem, start), ct)
  {
    hide ValueOf, Stores, LogOk, StreamBuf, StreamCount, Starved, Popped, UWrite, VWrite, Expected, ReaderOk, Two,
      Primed;
    var e := s.eng;
    PoppedOk(e.rd, s.dout, mem, ct, 20 * e.uPair, 20, CT_V_BASE);
    UWriteIs(e, s.dout, ValueOf(ct));
    UWriteWe(e, s.dout);
    LogKeeps(s, Cycle(s, mem, start), ValueOf(ct), UWrite(e, s.dout));
    PrimedOk(ValueOf(ct), mem(e.rd.raddr));
  }

  lemma {:induction false} UCycle(s: System, mem: Memory, start: bool, ct: seq<Byte>)
    requires Inv(s, ct) && Stores(mem, ct) && s.eng.state == U_RUN
    ensures Inv(Cycle(s, mem, start), ct)
  {
    hide *;
    if StreamCount(s.eng.rd) < 20 {
      UStarves(s, mem, start, ct);
    } else {
      UTakes(s, mem, start, ct);
    }
  }

  lemma UWriteWe(e: Engine, dout: nat)
    ensures UWrite(e, dout).we && VWrite(e, dout).we
  {
  }

  lemma PrimedOk(s: nat, dout: nat)
    ensures ReaderOk(Primed(CT_V_BASE), dout, s, 5120, 768)
  {
    assert Two(0) == 1;
  }

  lemma {:induction false} VStarves(s: System, mem: Memory, start: bool, ct: seq<Byte>)
    requires Inv(s, ct) && Stores(mem, ct) && s.eng.state == V_RUN && StreamCount(s.eng.rd) < 8
    ensures Inv(Cycle(s, mem, start), ct)
  {
    hide ValueOf, Stores, LogOk, StreamBuf, Starved, Popped, UWrite, VWrite, Expected, ReaderOk, Two;
    StarvedOk(s.eng.rd, s.dout, mem, ct, 5120 + 8 * s.eng.vPair, CT_END);
  }

  lemma {:induction false} VTakes(s: System, mem: Memory, start: bool, ct: seq<Byte>)
    requires Inv(s, ct) && Stores(mem, ct) && s.eng.state == V_RUN && StreamCount(s.eng.rd) >= 8
    ensures Inv(Cycle(s, mem, start), ct)
  {
    hide ValueOf, Stores, LogOk, StreamBuf, StreamCount, Starved, Popped, UWrite, VWrite, Expected, ReaderOk, Two;
    var e := s.eng;
    PoppedOk(e.rd, s.dout, mem, ct, 5120 + 8 * e.vPair, 8, CT_END);
    VWriteIs(e, s.dout, ValueOf(ct));
    UWriteWe(e, s.dout);
    LogKeeps(s, Cycle(s, mem, start), ValueOf(ct), VWrite(e, s.dout));
    if e.vPair == 127 {
      EndDrained(Popped(e.rd, s.dout, 8, CT_END), mem(e.rd.raddr), ValueOf(ct));
    }
  }

  lemma {:induction false} VCycle(s: System, mem: Memory, start: bool, ct: seq<Byte>)
    requires Inv(s, ct) && Stores(mem, ct) && s.eng.state == V_RUN
    ensures Inv(Cycle(s, mem, start), ct)
  {
    hide *;
    if StreamCount(s.eng.rd) < 8 {
      VStarves(s, mem, start, ct);
    } else {
      VTakes(s, mem, start, ct);
    }
  }

  lemma EndDrained(r: Reader, dout: nat, s: nat)
    requires ReaderOk(r, dout, s, 6144, 768)
    ensures r.count == 0 && Flights(r) == 0
  {
    hide Slice;
  }

  // The buffer never needs more than its 128 bits
  lemma {:induction false} NoOverflow(s: System, ct: seq<Byte>)
    requires Inv(s, ct)
    ensures s.eng.rd.count <= 128 && StreamCount(s.eng.rd) == s.eng.rd.count + (if s.eng.rd.v1 then 64 else 0) <= 128
  {
    hide LogOk, ValueOf, Slice;
  }

  // ----- Runs -----

  function Run(s: System, mem: Memory, n: nat): System {
    if n == 0 then s else Cycle(Run(s, mem, n - 1), mem, false)
  }

  predicate Ready(s: System) {
    s.eng.state == IDLE && s.log == []
  }

  lemma {:induction false} StartInv(s: System, mem: Memory, ct: seq<Byte>)
    requires Ready(s)
    ensures Inv(Cycle(s, mem, true), ct) && Cycle(s, mem, true).eng.state == U_RUN
  {
    assert Two(0) == 1;
  }

  // Each cycle writes a pair or brings the next word one step closer
  function Rank(s: System): nat {
    match s.eng.state
    case IDLE => 0
    case U_RUN => 1 + 3 * (384 - (if s.eng.uPair < 256 then s.eng.uPair else 256)) + Wait(s.eng.rd, 20)
    case V_RUN => 1 + 3 * (128 - (if s.eng.vPair < 128 then s.eng.vPair else 128)) + Wait(s.eng.rd, 8)
    case DONE => 1
  }

  function Wait(r: Reader, width: nat): (w: nat)
    ensures w <= 2
  {
    if StreamCount(r) >= width then 0 else if r.v0 then 1 else 2
  }

  lemma {:induction false} URankFalls(s: System, mem: Memory)
    requires s.eng.state == U_RUN && s.eng.uPair < 256
    requires StreamCount(s.eng.rd) < 20 ==> Wait(Starved(s.eng.rd, s.dout, CT_V_BASE), 20) < Wait(s.eng.rd, 20)
    ensures Rank(Cycle(s, mem, false)) < Rank(s)
  {
    hide StreamCount, Starved, Popped, Primed, Wait, UWrite;
    WaitNone(s.eng.rd, 20);
  }

  lemma {:induction false} VRankFalls(s: System, mem: Memory)
    requires s.eng.state == V_RUN && s.eng.vPair < 128
    requires StreamCount(s.eng.rd) < 8 ==> Wait(Starved(s.eng.rd, s.dout, CT_END), 8) < Wait(s.eng.rd, 8)
    ensures Rank(Cycle(s, mem, false)) < Rank(s)
  {
    hide StreamCount, Starved, Popped, Primed, Wait, VWrite;
    WaitNone(s.eng.rd, 8);
  }

  lemma WaitNone(r: Reader, width: nat)
    ensures StreamCount(r) >= width ==> Wait(r, width) == 0
  {
  }

  lemma {:induction false} RankFalls(s: System, mem: Memory, ct: seq<Byte>)
    requires Inv(s, ct) && Stores(mem, ct)
    ensures Rank(Cycle(s, mem, false)) < Rank(s)
  {
    hide ValueOf, Stores, LogOk, ReaderOk, StreamCount, Starved, Wait, Cycle;
    if s.eng.state == U_RUN {
      WaitFalls(s.eng.rd, s.dout, ValueOf(ct), 20 * s.eng.uPair, 20, CT_V_BASE);
      URankFalls(s, mem);
    } else if s.eng.state == V_RUN {
      WaitFalls(s.eng.rd, s.dout, ValueOf(ct), 5120 + 8 * s.eng.vPair, 8, CT_END);
      VRankFalls(s, mem);
    } else {
      DoneCycle(s, mem);
    }
  }

  lemma {:induction false} WaitFalls(r: Reader, dout: nat, s: nat, pos: nat, width: nat, end: nat)
    requires ReaderOk(r, dout, s, pos, end) && 0 < width <= 20 && pos + width <= 8 * end
    ensures StreamCount(r) < width ==> Wait(Starved(r, dout, end), width) < Wait(r, width)
  {
    hide StreamBuf, Slice;
  }

  // The first cycle after which the engine is finished, if it is within n
  function FinishedBy(f: System, mem: Memory, ct: seq<Byte>, n: nat): (k: nat)
    ensures k <= n && (Finished(Run(f, mem, k), ct) || k == n)
  {
    hide *;
    if n == 0 then 0
    else if Finished(Run(f, mem, FinishedBy(f, mem, ct, n - 1)), ct) then FinishedBy(f, mem, ct, n - 1)
    else n
  }

  lemma {:induction false} RunKeeps(s: System, mem: Memory, ct: seq<Byte>, n: nat)
    requires Ready(s) && Stores(mem, ct)
    ensures var f := Cycle(s, mem, true);
      Finished(Run(f, mem, FinishedBy(f, mem, ct, n)), ct)
      || (Inv(Run(f, mem, n), ct) && Rank(Run(f, mem, n)) + n <= 1155)
  {
    hide Cycle, Inv, Stores, Rank, Finished;
    var f := Cycle(s, mem, true);
    if n == 0 {
      StartInv(s, mem, ct);
      StartRank(s, mem);
    } else {
      RunKeeps(s, mem, ct, n - 1);
      if !Finished(Run(f, mem, FinishedBy(f, mem, ct, n - 1)), ct) {
        InvCycle(Run(f, mem, n - 1), mem, ct);
      }
    }
  }

  lemma StartRank(s: System, mem: Memory)
    requires Ready(s)
    ensures Rank(Cycle(s, mem, true)) <= 1155
  {
  }

  // done is high, and the log holds the whole ciphertext
  predicate Finished(s: System, ct: seq<Byte>) {
    s.eng.done && s.eng.state == IDLE && |s.log| == 384 && LogOk(s.log, ValueOf(ct))
  }

  lemma {:induction false} InvCycle(s: System, mem: Memory, ct: seq<Byte>)
    requires Inv(s, ct) && Stores(mem, ct)
    ensures var t := Cycle(s, mem, false);
      if s.eng.state == DONE then Finished(t, ct) else Inv(t, ct) && Rank(t) < Rank(s)
  {
    hide Cycle, Stores, ReaderOk, LogOk, ValueOf, Rank;
    if s.eng.state == U_RUN {
      UCycle(s, mem, false, ct);
      RankFalls(s, mem, ct);
    } else if s.eng.state == V_RUN {
      VCycle(s, mem, false, ct);
      RankFalls(s, mem, ct);
    } else {
      DoneCycle(s, mem);
    }
  }

  lemma DoneCycle(s: System, mem: Memory)
    requires s.eng.state == DONE
    ensures var t := Cycle(s, mem, false); t.eng.done && t.eng.state == IDLE && t.log == s.log
  {
  }

  // ----- The writes are unpack_ciphertext -----

  lemma LaneDuIs(c: nat)
    requires c < 1024
    ensures LaneDu(c) == Decompress10(c)
  {
    assert MulByQ(c) == c * Q;
    SmallRemainder(c * Q + 512, 0x1_0000_0000);
  }

  lemma LaneDvIs(c: nat)
    requires c < 16
    ensures LaneDv(c) == Decompress4(c)
  {
    assert MulByQ(c) == c * Q;
    SmallRemainder(c * Q + 8, 0x1_0000_0000);
  }

  // Polynomial p of u, and v, as kyber/ref/indcpa.c unpacks them
  function UnpackedU(ct: seq<Byte>, p: nat): (r: seq<int>)
    requires |ct| == 768 && p < 2
    ensures |r| == 256
  {
    Decompress10All(Unpack10(ct[320 * p..320 * p + 320]))
  }

  function UnpackedV(ct: seq<Byte>): (r: seq<int>)
    requires |ct| == 768
    ensures |r| == 256
  {
    Decompress4All(Unpack4(ct[640..768]))
  }

  // Pair number i of the reference: slots 4 and 5 hold u, slot 6 holds v
  function ReferenceWrite(ct: seq<Byte>, i: nat): Write
    requires |ct| == 768 && i < 384
  {
    if i < 256 then
      var u, c := UnpackedU(ct, i / 128), 2 * (i % 128);
      Write(true, 4 + i / 128, i % 128, u[c], u[c + 1])
    else
      var v, c := UnpackedV(ct), 2 * (i - 256);
      Write(true, 6, i - 256, v[c], v[c + 1])
  }

  lemma {:induction false} WritesAreReference(ct: seq<Byte>, i: nat)
    requires |ct| == 768 && i < 384
    ensures Expected(ValueOf(ct), i) == ReferenceWrite(ct, i)
  {
    hide Slice, ValueOf, Unpack10, LaneDu, LaneDv, Decompress10, Decompress4;
    if i < 256 {
      var p, c := i / 128, 2 * (i % 128);
      UCoefficient(ct, p, c);
      UCoefficient(ct, p, c + 1);
      LaneDuIs(Slice(ValueOf(ct), 20 * i, 10));
      LaneDuIs(Slice(ValueOf(ct), 20 * i + 10, 10));
    } else {
      var j := i - 256;
      VCoefficient(ct, j);
      LaneDvIs(ct[640 + j] % 16);
      LaneDvIs(ct[640 + j] / 16);
      NibblePair(ct[640..768], j);
    }
  }

  lemma NibblePair(b: seq<Byte>, j: nat)
    requires |b| == 128 && j < 128
    ensures Unpack4(b)[2 * j] == b[j] % 16 && Unpack4(b)[2 * j + 1] == b[j] / 16
  {
  }

  // Every run from start ends within 1156 cycles with done high, having written exactly the
  // reference pairs, in order
  lemma {:induction false} RunUnpacks(s: System, mem: Memory, ct: seq<Byte>)
    requires |ct| == 768 && Ready(s) && Stores(mem, ct)
    ensures var f := Cycle(s, mem, true);
      var t := Run(f, mem, FinishedBy(f, mem, ct, 1156));
      t.eng.done && |t.log| == 384 && forall i :: 0 <= i < 384 ==> t.log[i] == ReferenceWrite(ct, i)
  {
    hide Cycle, Run, Inv, Stores, Rank, FinishedBy, Expected, ReferenceWrite, ValueOf;
    RunKeeps(s, mem, ct, 1156);
    var f := Cycle(s, mem, true);
    var t := Run(f, mem, FinishedBy(f, mem, ct, 1156));
    forall i | 0 <= i < 384
      ensures t.log[i] == ReferenceWrite(ct, i)
    {
      WritesAreReference(ct, i);
    }
  }
}
