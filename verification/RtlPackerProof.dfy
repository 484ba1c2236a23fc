/** The pack engine writes exactly the 768 bytes of pack_ciphertext, in 96 words in address order,
    leaves nothing in its accumulator at the end of either phase, and takes a fixed number of
    cycles. */
module RtlPackerProof {
  import opened Division
  import opened ModQ
  import opened Zetas
  import opened Codecs
  import opened Packing
  import opened Compression
  import opened RejSample
  import opened Kpke
  import opened KpkeCorrect
  import opened Indcpa
  import opened BitStream
  import opened RtlPacker

  // The coefficients are in the range of the reductions in front of the engine
  ghost predicate Proper(c: Cipher) {
    Within(c.u0, -Q, Q) && Within(c.u1, -Q, Q) && Within(c.v, -Q, Q)
  }

  function UPoly(c: Cipher, p: nat): Elem {
    if p == 0 then c.u0 else c.u1
  }

  function UPair(c: Cipher, i: nat): Pair
    requires i < 256
  {
    Pair(UPoly(c, i / 128)[2 * (i % 128)], UPoly(c, i / 128)[2 * (i % 128) + 1])
  }

  function VPair(c: Cipher, i: nat): Pair
    requires i < 128
  {
    Pair(c.v[2 * i], c.v[2 * i + 1])
  }

  // The polynomial memory, by pair address
  type Memory = nat -> Pair

  ghost predicate Stores(mem: Memory, b: Bases, c: Cipher) {
    && Proper(c)
    && (forall i :: 0 <= i < 256 ==> mem((b.u + i) % 2048) == UPair(c, i))
    && (forall i :: 0 <= i < 128 ==> mem((b.v + i) % 2048) == VPair(c, i))
  }

  // The engine, the memory's output register, and the writes seen so far
  datatype System = System(eng: Engine, dout: Pair, log: seq<Ext>)

  function Cycle(s: System, mem: Memory, b: Bases, start: bool): System {
    var e := Tick(s.eng, false, start, b, s.dout);
    System(e, mem(s.eng.pairAddr), if e.ext.we then s.log + [e.ext] else s.log)
  }

  // ----- Compression lanes -----

  // 161271 * q == 2^29 + 247
  lemma Scaled(n: nat, k: nat, r: nat)
    requires n == Q * k + r && r < Q && k <= 1024 && (r == Q - 1 ==> k <= 651)
    ensures n * 161271 / 0x2000_0000 == k
  {
    assert n * 161271 == k * 0x2000_0000 + 247 * k + r * 161271;
    assert 0 <= 247 * k + r * 161271 < 0x2000_0000;
  }

  lemma DivideIs(n: nat, k: nat, r: nat)
    requires n == Q * k + r && r < Q && k <= 1024 && (r == Q - 1 ==> k <= 651)
    ensures Divide(n) == k
  {
    Scaled(n, k, r);
    assert n < 0x40_0000;
    assert MulScale(n) == n * 161271;
  }

  // Both multiply-and-shift dividers, the engine's and the C code's, round exactly
  lemma {:induction false} LaneDuIs(x: nat)
    requires x < Q
    ensures LaneDu(x) == CompressSpec(10, x) == Compress10(x)
  {
    hide Divide, Compress10;
    var n := 1024 * x + 1664;
    var k, r := n / Q, n % Q;
    if r == Q - 1 {
      assert k == 384 by { assert 1024 * (x + 1 - 3 * (k + 1)) == 257 * (k + 1) - 641; }
    }
    DivideIs(n, k, r);
    Compress10Exact(x);
  }

  lemma {:induction false} LaneDvIs(x: nat)
    requires x < Q
    ensures LaneDv(x) == CompressSpec(4, x) == Compress4(x)
  {
    hide Divide, Compress4;
    var n := 16 * x + 1664;
    DivideIs(n, n / Q, n % Q);
    Compress4Exact(x);
  }

  lemma ToQ12Is(x: int)
    requires -Q <= x < Q
    ensures ToQ12(x) == ToStandard(x) < Q
  {
  }

  // ----- The fields of the ciphertext -----

  lemma {:induction false} UFields(c: Cipher, p: nat, j: nat)
    requires Proper(c) && p < 2 && j < 256
    ensures Slice(ValueOf(CipherBytes(c)), 10 * (256 * p + j), 10) == LaneDu(ToQ12(UPoly(c, p)[j]))
  {
    hide Slice, ValueOf, Pack10, Pack4, Unpack10, LaneDu, ToQ12, Compress10;
    var ct, t := CipherBytes(c), Compress10All(Standard(UPoly(c, p)));
    UCoefficient(ct, p, j);
    assert ct[320 * p..320 * p + 320] == Pack10(t);
    Unpack10OfPack10(t);
    WithinAt(UPoly(c, p), -Q, Q, j);
    ToQ12Is(UPoly(c, p)[j]);
    LaneDuIs(ToQ12(UPoly(c, p)[j]));
  }

  lemma {:induction false} VFields(c: Cipher, j: nat)
    requires Proper(c) && j < 128
    ensures Slice(ValueOf(CipherBytes(c)), 5120 + 8 * j, 4) == LaneDv(ToQ12(c.v[2 * j]))
    ensures Slice(ValueOf(CipherBytes(c)), 5120 + 8 * j + 4, 4) == LaneDv(ToQ12(c.v[2 * j + 1]))
  {
    hide Slice, ValueOf, Pack10, LaneDv, ToQ12, Compress4, Pack4;
    var ct, t := CipherBytes(c), Compress4All(Standard(c.v));
    VCoefficient(ct, j);
    assert ct[640 + j] == Pack4(t)[j];
    NibblesOf(t, j);
    ToQ12Is(c.v[2 * j]);
    ToQ12Is(c.v[2 * j + 1]);
    LaneDvIs(ToQ12(c.v[2 * j]));
    LaneDvIs(ToQ12(c.v[2 * j + 1]));
  }

  lemma NibblesOf(t: seq<int>, j: nat)
    requires |t| == 256 && Within(t, 0, 16) && j < 128
    ensures Pack4(t)[j] % 16 == t[2 * j] && Pack4(t)[j] / 16 == t[2 * j + 1]
  {
  }

  lemma {:induction false} UWordIs(c: Cipher, i: nat)
    requires Proper(c) && i < 256
    ensures WordDu(UPair(c, i)) % Two(20) == Slice(ValueOf(CipherBytes(c)), 20 * i, 20)
  {
    hide Slice, ValueOf, CipherBytes, LaneDu, ToQ12, Two, Within;
    var s := ValueOf(CipherBytes(c));
    UFields(c, i / 128, 2 * (i % 128));
    UFields(c, i / 128, 2 * (i % 128) + 1);
    SliceJoin(s, 20 * i, 10, 10);
    SliceBound(s, 20 * i, 20);
    TwoTen();
    SmallRemainder(WordDu(UPair(c, i)), Two(20));
  }

  lemma {:induction false} VWordIs(c: Cipher, i: nat)
    requires Proper(c) && i < 128
    ensures WordDv(VPair(c, i)) % Two(8) == Slice(ValueOf(CipherBytes(c)), 5120 + 8 * i, 8)
  {
    hide Slice, ValueOf, CipherBytes, LaneDv, ToQ12, Two, Within;
    var s := ValueOf(CipherBytes(c));
    VFields(c, i);
    SliceJoin(s, 5120 + 8 * i, 4, 4);
    SliceBound(s, 5120 + 8 * i, 8);
    TwoFour();
    SmallRemainder(WordDv(VPair(c, i)), Two(8));
  }

  lemma TwoTen()
    ensures Two(10) == 1024
  {
  }

  // ----- The accumulator -----

  // It holds the stream s from the last word boundary up to bit pos
  predicate AccOk(a: Acc, s: nat, pos: nat) {
    a.count < 64 && 8 * a.offset + a.count == pos && a.offset % 8 == 0 && a.bits == Slice(s, 8 * a.offset, a.count)
  }

  function WordAt(s: nat, base: nat, i: nat): Ext {
    Ext(true, (base + 8 * i) % 8192, Slice(s, 64 * i, 64))
  }

  lemma {:induction false} AppendOk(a: Acc, s: nat, pos: nat, word: nat, n: nat, base: nat, quiet: Ext)
    requires AccOk(a, s, pos) && word % Two(n) == Slice(s, pos, n) && n <= 20 && pos + n <= 6144
    ensures AccOk(Appended(a, word, n), s, pos + n)
    ensures ExtOf(a, word, n, base, quiet) == if a.count + n < 64 then quiet else WordAt(s, base, a.offset / 8)
    ensures Appended(a, word, n).offset == a.offset + if a.count + n < 64 then 0 else 8
  {
    hide Slice, Two;
    SliceJoin(s, 8 * a.offset, a.count, n);
    if a.count + n >= 64 {
      SliceDrop(s, 8 * a.offset, 64, a.count + n - 64);
    }
  }

  // ----- The read pipeline -----

  function Flights(e: Engine): nat {
    (if e.rd0.valid then 1 else 0) + (if e.rd1.valid then 1 else 0)
  }

  // n pairs have been taken; those in flight come next
  predicate PipeOk(e: Engine, dout: Pair, mem: Memory, n: nat, pairs: nat, base: nat) {
    && n < pairs && n + Flights(e) == e.issue <= pairs
    && (e.rd1.valid ==> e.rd1.index == n && dout == mem((base + n) % 2048))
    && (e.rd0.valid ==> e.rd0.index == e.issue - 1 && e.pairAddr == (base + e.issue - 1) % 2048)
    && (e.rd1.valid && !e.rd0.valid ==> e.issue == pairs)
  }

  predicate LogOk(log: seq<Ext>, s: nat, base: nat) {
    forall i :: 0 <= i < |log| ==> log[i] == WordAt(s, base, i)
  }

  lemma LogPush(log: seq<Ext>, s: nat, base: nat)
    requires LogOk(log, s, base)
    ensures LogOk(log + [WordAt(s, base, |log|)], s, base)
  {
    hide WordAt;
  }

  function Took(e: Engine): nat {
    e.issue - (if Flights(e) <= e.issue then Flights(e) else 0)
  }

  ghost predicate StreamOk(s: System, b: Bases, c: Cipher, pos: nat)
  {
    && AccOk(s.eng.acc, ValueOf(CipherBytes(c)), pos)
    && 8 * |s.log| == s.eng.acc.offset && LogOk(s.log, ValueOf(CipherBytes(c)), b.ct)
  }

  ghost predicate Inv(s: System, mem: Memory, b: Bases, c: Cipher)
  {
    match s.eng.state
    case IDLE => false
    case U_RUN =>
      PipeOk(s.eng, s.dout, mem, Took(s.eng), 256, b.u) && StreamOk(s, b, c, 20 * Took(s.eng))
    case V_RUN =>
      PipeOk(s.eng, s.dout, mem, Took(s.eng), 128, b.v) && StreamOk(s, b, c, 5120 + 8 * Took(s.eng))
    case DONE => StreamOk(s, b, c, 6144)
  }

  // Cycles left in the phases: one for each pair, and two to fill the read pipeline
  function Bubbles(e: Engine): nat {
    if e.rd1.valid then 0 else if e.rd0.valid then 1 else 2
  }

  function Left(e: Engine): int {
    match e.state
    case IDLE => 0
    case U_RUN => 130 + 256 - Took(e) + Bubbles(e)
    case V_RUN => 128 - Took(e) + Bubbles(e)
    case DONE => 0
  }

  // The stream side of an edge that may take a pair
  lemma {:induction false} StreamStep(s: System, t: System, b: Bases, c: Cipher, pos: nat, word: nat, n: nat)
    requires Proper(c) && StreamOk(s, b, c, pos) && n <= 20 && pos + n <= 6144
    requires s.eng.rd1.valid ==> word % Two(n) == Slice(ValueOf(CipherBytes(c)), pos, n)
    requires t.eng.acc == AccNext(s.eng, word, n) && t.eng.ext == ExtNext(s.eng, word, n, b.ct)
    requires t.log == if t.eng.ext.we then s.log + [t.eng.ext] else s.log
    ensures StreamOk(t, b, c, pos + if s.eng.rd1.valid then n else 0)
  {
    hide Slice, ValueOf, CipherBytes, Within, Appended, ExtOf, AccOk, LogOk, Two;
    if s.eng.rd1.valid {
      AppendOk(s.eng.acc, ValueOf(CipherBytes(c)), pos, word, n, b.ct, Quiet(s.eng.ext));
      LogPush(s.log, ValueOf(CipherBytes(c)), b.ct);
    }
  }

  lemma {:induction false} UCycle(s: System, mem: Memory, b: Bases, c: Cipher)
    requires Stores(mem, b, c) && Inv(s, mem, b, c) && s.eng.state == U_RUN
    ensures Inv(Cycle(s, mem, b, false), mem, b, c)
    ensures Left(Cycle(s, mem, b, false).eng) == Left(s.eng) - 1
  {
    hide Slice, ValueOf, CipherBytes, Proper, StreamOk, AccNext, ExtNext, WordDu, UPair, VPair, Two;
    var n := Took(s.eng);
    if s.eng.rd1.valid {
      UWordIs(c, n);
    }
    StreamStep(s, Cycle(s, mem, b, false), b, c, 20 * n, WordDu(s.dout), 20);
  }

  lemma {:induction false} VCycle(s: System, mem: Memory, b: Bases, c: Cipher)
    requires Stores(mem, b, c) && Inv(s, mem, b, c) && s.eng.state == V_RUN
    ensures Inv(Cycle(s, mem, b, false), mem, b, c)
    ensures Left(Cycle(s, mem, b, false).eng) == Left(s.eng) - 1
  {
    hide Slice, ValueOf, CipherBytes, Proper, StreamOk, AccNext, ExtNext, WordDv, UPair, VPair, Two;
    var n := Took(s.eng);
    if s.eng.rd1.valid {
      VWordIs(c, n);
    }
    StreamStep(s, Cycle(s, mem, b, false), b, c, 5120 + 8 * n, WordDv(s.dout), 8);
  }

  // Between the phases and at the end the accumulator is empty
  lemma {:induction false} BoundaryEmpty(s: System, mem: Memory, b: Bases, c: Cipher)
    requires Proper(c) && Inv(s, mem, b, c)
    ensures s.eng.state == DONE || (s.eng.state == V_RUN && Took(s.eng) == 0) ==> s.eng.acc.count == s.eng.acc.bits == 0
    ensures s.eng.state == DONE ==> |s.log| == 96
  {
    hide ValueOf, CipherBytes, Within, LogOk;
    assert Two(0) == 1;
  }

  // ----- Runs -----

  function Run(s: System, mem: Memory, b: Bases, n: nat): System {
    if n == 0 then s else Cycle(Run(s, mem, b, n - 1), mem, b, false)
  }

  predicate Ready(s: System) {
    (s.eng.state == IDLE || s.eng.state == DONE) && s.log == []
  }

  lemma {:induction false} StartInv(s: System, mem: Memory, b: Bases, c: Cipher)
    requires Proper(c) && Ready(s)
    ensures var t := Cycle(s, mem, b, true); Inv(t, mem, b, c) && t.eng.state == U_RUN && Left(t.eng) == 388
  {
    hide ValueOf, CipherBytes, Within;
    assert Two(0) == 1;
  }

  lemma {:induction false} RunKeeps(s: System, mem: Memory, b: Bases, c: Cipher, n: nat)
    requires Stores(mem, b, c) && Ready(s) && n <= 388
    ensures var t := Run(Cycle(s, mem, b, true), mem, b, n);
      Inv(t, mem, b, c) && Left(t.eng) == 388 - n
  {
    hide Cycle, Inv, Took, Bubbles;
    if n == 0 {
      StartInv(s, mem, b, c);
    } else {
      RunKeeps(s, mem, b, c, n - 1);
      var t := Run(Cycle(s, mem, b, true), mem, b, n - 1);
      Phase(t, mem, b, c);
      if t.eng.state == U_RUN {
        UCycle(t, mem, b, c);
      } else {
        VCycle(t, mem, b, c);
      }
    }
  }

  lemma Phase(s: System, mem: Memory, b: Bases, c: Cipher)
    requires Proper(c) && Inv(s, mem, b, c)
    ensures s.eng.state == U_RUN || s.eng.state == V_RUN || s.eng.state == DONE
    ensures s.eng.state == DONE <==> Left(s.eng) <= 0
  {
    hide StreamOk;
  }

  // Word i is bytes 8 i .. 8 i + 8 of the ciphertext
  ghost function ReferenceWrite(c: Cipher, base: nat, i: nat): Ext
    requires i < 96
  {
    Ext(true, (base + 8 * i) % 8192, ValueOf(CipherBytes(c)[8 * i..8 * i + 8]))
  }

  // 388 cycles after the start edge the whole ciphertext is written; at the next edge done rises
  lemma {:induction false} RunPacks(s: System, mem: Memory, b: Bases, c: Cipher)
    requires Stores(mem, b, c) && Ready(s)
    ensures var t := Run(Cycle(s, mem, b, true), mem, b, 388);
      && t.eng.state == DONE && |t.log| == 96 && t.eng.acc.count == t.eng.acc.bits == 0
      && (forall i :: 0 <= i < 96 ==> t.log[i] == ReferenceWrite(c, b.ct, i))
      && Cycle(t, mem, b, false).eng.done && Cycle(t, mem, b, false).log == t.log
  {
    hide Inv, Left, Run, Tick, Within, CipherBytes, ValueOf, Slice;
    RunKeeps(s, mem, b, c, 388);
    var t := Run(Cycle(s, mem, b, true), mem, b, 388);
    Phase(t, mem, b, c);
    BoundaryEmpty(t, mem, b, c);
    DoneLog(t, mem, b, c);
    forall i | 0 <= i < 96
      ensures t.log[i] == ReferenceWrite(c, b.ct, i)
    {
      SliceBytes(CipherBytes(c), 8 * i, 8);
    }
    DoneCycle(t.eng, b, t.dout);
  }

  lemma DoneLog(s: System, mem: Memory, b: Bases, c: Cipher)
    requires Proper(c) && Inv(s, mem, b, c) && s.eng.state == DONE
    ensures LogOk(s.log, ValueOf(CipherBytes(c)), b.ct)
  {
    hide AccOk, LogOk, CipherBytes;
  }

  lemma DoneCycle(e: Engine, b: Bases, dout: Pair)
    requires e.state == DONE
    ensures Tick(e, false, false, b, dout).done && !Tick(e, false, false, b, dout).ext.we
  {
  }
}
