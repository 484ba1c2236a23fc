/** For every byte string and every pattern of word arrivals, the streaming sampler writes the 256
    coefficients of Algorithm 8 at consecutive addresses, within its 128-bit buffer. */
module RtlCbdProof {
  import opened Division
  import opened Zetas
  import opened Codecs
  import opened RejSample
  import opened BitStream
  import opened Cbd
  import opened RtlCbd

  // Bits of one coefficient, and 64-bit words of input, for either eta
  function Width(eta3: bool): nat {
    if eta3 then 6 else 4
  }

  function Words(eta3: bool): nat {
    if eta3 then 24 else 16
  }

  function Eta(eta3: bool): nat {
    if eta3 then 3 else 2
  }

  // Inputs of one cycle: is a word offered
  datatype Env = Env(start: bool, valid: bool)

  // The sampler, the words taken from the stream, and the writes seen so far
  datatype System = System(cbd: Sampler, taken: nat, log: seq<Write>)

  // Word i of the bytes b; the source marks the last one
  function PinsOf(s: System, b: seq<Byte>, eta3: bool, base: nat, e: Env): Pins {
    Pins(false, e.start, eta3, e.valid, Slice(ValueOf(b), 64 * s.taken, 64), s.taken + 1 == Words(eta3), base)
  }

  function Seen(a: Write, b: Write): seq<Write> {
    (if a.we then [a] else []) + (if b.we then [b] else [])
  }

  function Cycle(s: System, b: seq<Byte>, eta3: bool, base: nat, e: Env): System {
    var p := PinsOf(s, b, eta3, base, e);
    var c := Tick(s.cbd, p);
    System(c, s.taken + (if Accepts(s.cbd, p) then 1 else 0), s.log + Seen(c.a, c.b))
  }

  // ----- One lane is one coefficient -----

  lemma {:induction false} LaneBit(s: nat, p: nat, n: nat, k: nat)
    requires k < n
    ensures Bit(Slice(s, p, n), k) == Slice(s, p + k, 1) % 2 == Slice(s, p + k, 1)
  {
    hide Two, Slice, Bit;
    SliceInner(s, p, n, k, 1);
    BitIs(Slice(s, p, n), k);
    BitForm(Slice(s, p, n), k);
    SliceBound(s, p + k, 1);
    TwoOne();
  }

  lemma BitForm(x: nat, k: nat)
    ensures Bit(x, k) == Shr(x, k) % 2
  {
  }

  lemma OnesAre(s: nat, p: nat)
    ensures Ones(s, p, 2) == Slice(s, p, 1) % 2 + Slice(s, p + 1, 1) % 2
    ensures Ones(s, p, 3) == Slice(s, p, 1) % 2 + Slice(s, p + 1, 1) % 2 + Slice(s, p + 2, 1) % 2
  {
    hide Slice;
    assert Ones(s, p, 0) == 0;
    assert Ones(s, p, 1) == Slice(s, p, 1) % 2;
  }

  lemma CoreIs(d0: nat, d1: nat, d2: nat, d3: nat, d4: nat, d5: nat)
    requires d0 < 2 && d1 < 2 && d2 < 2 && d3 < 2 && d4 < 2 && d5 < 2
    ensures Core(d0, d1, d2, d3, d4, d5) == d0 + d1 + d2 - (d3 + d4 + d5)
  {
  }

  lemma {:induction false} LaneThree(s: nat, q: nat, n: nat, p: nat)
    requires 6 * p + 6 <= n
    ensures Lane(Slice(s, q, n), true, p) == Ones(s, q + 6 * p, 3) - Ones(s, q + 6 * p + 3, 3)
  {
    hide Slice, Ones, Bit, Core;
    var x := Slice(s, q, n);
    LaneBit(s, q, n, 6 * p);
    LaneBit(s, q, n, 6 * p + 1);
    LaneBit(s, q, n, 6 * p + 2);
    LaneBit(s, q, n, 6 * p + 3);
    LaneBit(s, q, n, 6 * p + 4);
    LaneBit(s, q, n, 6 * p + 5);
    CoreIs(Bit(x, 6 * p), Bit(x, 6 * p + 1), Bit(x, 6 * p + 2), Bit(x, 6 * p + 3), Bit(x, 6 * p + 4),
      Bit(x, 6 * p + 5));
    OnesAre(s, q + 6 * p);
    OnesAre(s, q + 6 * p + 3);
  }

  lemma {:induction false} LaneTwo(s: nat, q: nat, n: nat, p: nat)
    requires 4 * p + 4 <= n
    ensures Lane(Slice(s, q, n), false, p) == Ones(s, q + 4 * p, 2) - Ones(s, q + 4 * p + 2, 2)
  {
    hide Slice, Ones, Bit, Core;
    var x := Slice(s, q, n);
    LaneBit(s, q, n, 4 * p);
    LaneBit(s, q, n, 4 * p + 1);
    LaneBit(s, q, n, 4 * p + 2);
    LaneBit(s, q, n, 4 * p + 3);
    CoreIs(Bit(x, 4 * p), Bit(x, 4 * p + 1), 0, Bit(x, 4 * p + 2), Bit(x, 4 * p + 3), 0);
    OnesAre(s, q + 4 * p);
    OnesAre(s, q + 4 * p + 2);
  }

  lemma {:induction false} LaneIs(s: nat, eta3: bool, k: nat, n: nat, p: nat)
    requires (if eta3 then 6 * p + 6 else 4 * p + 4) <= n
    ensures Lane(Slice(s, Width(eta3) * k, n), eta3, p) == CbdCoeff(s, Eta(eta3), k + p)
  {
    hide Slice, Ones, Lane;
    if eta3 {
      LaneThree(s, 6 * k, n, p);
    } else {
      LaneTwo(s, 4 * k, n, p);
    }
  }

  // ----- The buffer -----

  predicate BufferOk(s: System, b: seq<Byte>) {
    var c := s.cbd;
    && c.cnt < 256 && s.taken <= Words(c.eta3) && c.avail <= 124
    && Width(c.eta3) * c.cnt + c.avail == 64 * s.taken
    && c.buf == Slice(ValueOf(b), Width(c.eta3) * c.cnt, c.avail)
    && (c.inputDone <==> s.taken == Words(c.eta3))
  }

  // A word fits, and the buffer is then the longer stretch of the stream
  lemma {:induction false} BufferTakes(s: System, b: seq<Byte>, p: Pins)
    requires BufferOk(s, b) && p.data == Slice(ValueOf(b), 64 * s.taken, 64)
    ensures Available(s.cbd, p) == s.cbd.avail + (if Accepts(s.cbd, p) then 64 else 0) <= 128
    ensures SampleBuf(s.cbd, p) == Slice(ValueOf(b), Width(s.cbd.eta3) * s.cbd.cnt, Available(s.cbd, p))
  {
    hide Two, Slice, ValueOf;
    if Accepts(s.cbd, p) {
      var v, o, n := ValueOf(b), Width(s.cbd.eta3) * s.cbd.cnt, s.cbd.avail;
      SliceJoin(v, o, n, 64);
      SliceBound(v, o, n + 64);
      TwoMonotone(n + 64, 128);
      SmallRemainder(Slice(v, o, n + 64), Two(128));
    }
  }

  predicate LogOk(log: seq<Write>, b: seq<Byte>, eta3: bool, base: nat) {
    forall k :: 0 <= k < |log| ==> log[k] == Put(base, k, CbdCoeff(ValueOf(b), Eta(eta3), k))
  }

  lemma LogOkMore(log: seq<Write>, w: Write, b: seq<Byte>, eta3: bool, base: nat)
    requires LogOk(log, b, eta3, base) && w == Put(base, |log|, CbdCoeff(ValueOf(b), Eta(eta3), |log|))
    ensures LogOk(log + [w], b, eta3, base)
  {
    hide CbdCoeff, ValueOf, Put;
  }

  predicate Inv(s: System, b: seq<Byte>, eta3: bool, base: nat) {
    && s.cbd.eta3 == eta3 && LogOk(s.log, b, eta3, base)
    && match s.cbd.state
       case IDLE => false
       case PROCESS => BufferOk(s, b) && |s.log| == s.cbd.cnt
       case FINISH => |s.log| == 256
  }

  // The emitted coefficients are the next ones
  lemma {:induction false} EmitOk(s: System, b: seq<Byte>, eta3: bool, base: nat, e: Env)
    requires Inv(s, b, eta3, base) && s.cbd.state == PROCESS
    ensures var p, t := PinsOf(s, b, eta3, base, e), Cycle(s, b, eta3, base, e);
      |t.log| == s.cbd.cnt + Emits(s.cbd, p) && LogOk(t.log, b, eta3, base)
  {
    hide Slice, ValueOf, Two, Lane, CbdCoeff, SampleBuf, Available, BufNext, BufferOk, LogOk;
    var p := PinsOf(s, b, eta3, base, e);
    BufferTakes(s, b, p);
    var c, t := Tick(s.cbd, p), Cycle(s, b, eta3, base, e);
    if CanEmit(s.cbd, p) {
      LaneIs(ValueOf(b), eta3, s.cbd.cnt, Available(s.cbd, p), 0);
      LogOkMore(s.log, c.a, b, eta3, base);
      if EmitTwo(s.cbd, p) {
        LaneIs(ValueOf(b), eta3, s.cbd.cnt, Available(s.cbd, p), 1);
        LogOkMore(s.log + [c.a], c.b, b, eta3, base);
        assert t.log == s.log + [c.a] + [c.b];
      } else {
        assert t.log == s.log + [c.a];
      }
    } else {
      assert t.log == s.log;
    }
  }

  // The registers after an edge in PROCESS
  lemma ProcessFields(s: System, b: seq<Byte>, eta3: bool, base: nat, e: Env)
    requires s.cbd.state == PROCESS
    ensures var t, p := Cycle(s, b, eta3, base, e), PinsOf(s, b, eta3, base, e);
      var n := Emits(s.cbd, p);
      && t.cbd.state == (if (n == 2 && s.cbd.cnt >= 254) || (n == 1 && s.cbd.cnt == 255) then FINISH else PROCESS)
      && t.cbd.buf == BufNext(s.cbd, p) && t.cbd.avail == Available(s.cbd, p) - n * Step1(s.cbd)
      && t.cbd.cnt == (if n > 0 then (s.cbd.cnt + n) % 512 else s.cbd.cnt) && t.cbd.eta3 == s.cbd.eta3
      && t.cbd.inputDone == (s.cbd.inputDone || (Accepts(s.cbd, p) && p.last))
      && t.taken == s.taken + if Accepts(s.cbd, p) then 1 else 0
  {
    hide Emits, Put, Lane, SampleBuf, BufNext, Available, ValueOf, Accepts;
  }

  // What stays in the buffer
  lemma {:induction false} BufferNext(s: System, b: seq<Byte>, eta3: bool, base: nat, e: Env)
    requires Inv(s, b, eta3, base) && s.cbd.state == PROCESS
    ensures var t := Cycle(s, b, eta3, base, e);
      var n := s.cbd.cnt + Emits(s.cbd, PinsOf(s, b, eta3, base, e));
      && t.cbd.eta3 == eta3
      && ((t.cbd.state == FINISH && n == 256) || (t.cbd.state == PROCESS && t.cbd.cnt == n && BufferOk(t, b)))
  {
    hide Slice, ValueOf, Two, Lane, CbdCoeff, SampleBuf, Available, LogOk, Cycle;
    var p := PinsOf(s, b, eta3, base, e);
    var n := Emits(s.cbd, p) * Step1(s.cbd);
    ProcessFields(s, b, eta3, base, e);
    BufferTakes(s, b, p);
    SliceDrop(ValueOf(b), Width(eta3) * s.cbd.cnt, n, Available(s.cbd, p) - n);
  }

  lemma {:induction false} InvStep(s: System, b: seq<Byte>, eta3: bool, base: nat, e: Env)
    requires Inv(s, b, eta3, base)
    ensures var t := Cycle(s, b, eta3, base, e);
      if s.cbd.state == FINISH then t.cbd.done && t.cbd.state == IDLE && t.log == s.log
      else Inv(t, b, eta3, base)
  {
    hide BufferOk, LogOk, Emits, Cycle;
    if s.cbd.state == PROCESS {
      EmitOk(s, b, eta3, base, e);
      BufferNext(s, b, eta3, base, e);
    } else {
      FinishCycle(s, b, eta3, base, e);
    }
  }

  lemma FinishCycle(s: System, b: seq<Byte>, eta3: bool, base: nat, e: Env)
    requires s.cbd.state == FINISH
    ensures var t := Cycle(s, b, eta3, base, e); t.cbd.done && t.cbd.state == IDLE && t.log == s.log
  {
    hide ValueOf, Slice, Two;
  }

  // The buffer holds at most 124 bits between edges and 128 while a word is taken
  lemma {:induction false} NoOverflow(s: System, b: seq<Byte>, eta3: bool, base: nat, e: Env)
    requires Inv(s, b, eta3, base) && s.cbd.state == PROCESS
    ensures s.cbd.avail <= 124 && Available(s.cbd, PinsOf(s, b, eta3, base, e)) <= 128
    ensures s.cbd.avail + (if Accepts(s.cbd, PinsOf(s, b, eta3, base, e)) then 64 else 0) <= 128
  {
    hide ValueOf, Slice, Two, LogOk, Available;
    BufferTakes(s, b, PinsOf(s, b, eta3, base, e));
  }

  // ----- Runs -----

  function Run(s: System, b: seq<Byte>, eta3: bool, base: nat, es: seq<Env>): System {
    if es == [] then s else Cycle(Run(s, b, eta3, base, es[..|es| - 1]), b, eta3, base, es[|es| - 1])
  }

  // The source still owes words and offers none: the only thing a run can wait for
  predicate Waits(s: System, e: Env) {
    !e.valid && s.taken < Words(s.cbd.eta3)
  }

  // Edges of the run that are not waits
  function Useful(s: System, b: seq<Byte>, eta3: bool, base: nat, es: seq<Env>): nat {
    if es == [] then 0
    else
      var front := es[..|es| - 1];
      Useful(s, b, eta3, base, front) + if Waits(Run(s, b, eta3, base, front), es[|es| - 1]) then 0 else 1
  }

  predicate Idle(s: System) {
    s.cbd.state == IDLE && s.taken == 0 && s.log == []
  }

  lemma {:induction false} StartInv(s: System, b: seq<Byte>, eta3: bool, base: nat, e: Env)
    requires Idle(s) && e.start
    ensures var t := Cycle(s, b, eta3, base, e); Inv(t, b, eta3, base) && t.cbd.state == PROCESS
  {
    hide ValueOf;
    assert Two(0) == 1;
  }

  // Every edge that is not a wait writes at least one coefficient: a word is taken, or more than a
  // word is buffered, or the bits left in the buffer are those of the coefficients left
  lemma {:induction false} UsefulEmits(s: System, b: seq<Byte>, eta3: bool, base: nat, e: Env)
    requires Inv(s, b, eta3, base) && s.cbd.state == PROCESS && !Waits(s, e)
    ensures Emits(s.cbd, PinsOf(s, b, eta3, base, e)) >= 1
  {
    hide ValueOf, Slice, Two, LogOk, Available;
    BufferTakes(s, b, PinsOf(s, b, eta3, base, e));
  }

  // Not yet past the final state
  predicate Working(s: System, b: seq<Byte>, eta3: bool, base: nat, es: seq<Env>) {
    es == [] || (Working(s, b, eta3, base, es[..|es| - 1])
                 && Run(s, b, eta3, base, es[..|es| - 1]).cbd.state == PROCESS)
  }

  lemma {:induction false} RunKeeps(s: System, b: seq<Byte>, eta3: bool, base: nat, es: seq<Env>)
    requires Inv(s, b, eta3, base) && s.cbd.state == PROCESS && s.log == [] && Working(s, b, eta3, base, es)
    ensures Inv(Run(s, b, eta3, base, es), b, eta3, base)
    ensures |Run(s, b, eta3, base, es).log|
         >= (if Useful(s, b, eta3, base, es) < 256 then Useful(s, b, eta3, base, es) else 256)
    decreases |es|
  {
    hide Cycle, ValueOf, BufferOk, LogOk, Emits, Waits;
    if es != [] {
      var front, e := es[..|es| - 1], es[|es| - 1];
      RunKeeps(s, b, eta3, base, front);
      var t := Run(s, b, eta3, base, front);
      InvStep(t, b, eta3, base, e);
      EmitOk(t, b, eta3, base, e);
      if !Waits(t, e) {
        UsefulEmits(t, b, eta3, base, e);
      }
    }
  }

  // When the final state is reached all 256 coefficients are written, at base, base + 1, ..., and
  // done rises at the next edge; it is reached after at most 256 edges that are not waits
  lemma {:induction false} RunSamples(s: System, b: seq<Byte>, eta3: bool, base: nat, start: Env, es: seq<Env>, e: Env)
    requires Idle(s) && start.start && Working(Cycle(s, b, eta3, base, start), b, eta3, base, es)
    ensures var f := Cycle(s, b, eta3, base, start);
      var t := Run(f, b, eta3, base, es);
      && (Useful(f, b, eta3, base, es) >= 256 ==> t.cbd.state == FINISH)
      && (t.cbd.state == FINISH ==>
            && |t.log| == 256
            && (forall k :: 0 <= k < 256 ==> t.log[k] == Put(base, k, CbdPoly(b, Eta(eta3))[k]))
            && Cycle(t, b, eta3, base, e).cbd.done && Cycle(t, b, eta3, base, e).log == t.log)
  {
    hide Cycle, ValueOf, BufferOk, CbdCoeff, Put;
    StartInv(s, b, eta3, base, start);
    var f := Cycle(s, b, eta3, base, start);
    StartLog(s, b, eta3, base, start);
    RunKeeps(f, b, eta3, base, es);
    var t := Run(f, b, eta3, base, es);
    NotFull(t, b, eta3, base);
    InvStep(t, b, eta3, base, e);
  }

  // A run with 256 edges that are not waits contains the final state
  lemma {:induction false} RunFinishes(s: System, b: seq<Byte>, eta3: bool, base: nat, start: Env, es: seq<Env>)
    returns (k: nat)
    requires Idle(s) && start.start && Useful(Cycle(s, b, eta3, base, start), b, eta3, base, es) >= 256
    ensures var f := Cycle(s, b, eta3, base, start);
      k <= |es| && Working(f, b, eta3, base, es[..k]) && Run(f, b, eta3, base, es[..k]).cbd.state == FINISH
  {
    hide Cycle, ValueOf, Useful, Inv;
    var f := Cycle(s, b, eta3, base, start);
    StartInv(s, b, eta3, base, start);
    StartLog(s, b, eta3, base, start);
    if Working(f, b, eta3, base, es) {
      RunSamples(s, b, eta3, base, start, es, start);
      k := |es|;
      assert es[..k] == es;
    } else {
      k := FirstStop(f, b, eta3, base, es);
      RunKeeps(f, b, eta3, base, es[..k]);
      NotFull(Run(f, b, eta3, base, es[..k]), b, eta3, base);
    }
  }

  lemma {:induction false} FirstStop(f: System, b: seq<Byte>, eta3: bool, base: nat, es: seq<Env>) returns (k: nat)
    requires !Working(f, b, eta3, base, es)
    ensures k < |es| && Working(f, b, eta3, base, es[..k]) && Run(f, b, eta3, base, es[..k]).cbd.state != PROCESS
    decreases |es|
  {
    hide Cycle, Run;
    var front := es[..|es| - 1];
    if Working(f, b, eta3, base, front) {
      k := |es| - 1;
    } else {
      k := FirstStop(f, b, eta3, base, front);
      assert front[..k] == es[..k];
    }
  }

  lemma StartLog(s: System, b: seq<Byte>, eta3: bool, base: nat, e: Env)
    requires Idle(s) && e.start
    ensures Cycle(s, b, eta3, base, e).log == []
  {
    hide ValueOf, Slice;
  }

  lemma NotFull(s: System, b: seq<Byte>, eta3: bool, base: nat)
    requires Inv(s, b, eta3, base)
    ensures s.cbd.state == PROCESS || s.cbd.state == FINISH
    ensures s.cbd.state == PROCESS ==> |s.log| < 256
  {
    hide ValueOf, Slice, LogOk;
  }
}
