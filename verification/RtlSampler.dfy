/** The hardware matrix sampler (rtl/kyber/kyber_matrix_sampler.v) with the eight-entry stream FIFO
    behind it (rtl/kyber/kyber512_core_fsm.v): 64-bit words arrive whenever the XOF has them, pairs
    leave whenever the consumer takes them. */
module RtlSampler {
  import opened ModQ
  import opened Zetas

  datatype State = IDLE | XOF_INIT | XOF_ACCEPT | WAIT_WORD | NEED_WORD | REJECT | NEXT_POLY | DONE

  // One write request of the sampler
  datatype Write = Write(we: bool, addr: nat, dout: int)

  const NO_WRITE: Write := Write(false, 0, 0)

  // buf is sample_buf; its bits from number bits upwards are zero, so or-ing in a word shifted by
  // bits adds it
  datatype Gm = Gm(state: State, loopI: nat, loopJ: nat, coeffCnt: nat, polyBase: nat, buf: nat, bits: nat,
                   a: Write, b: Write, reqX: nat, reqY: nat, reqValid: bool, release: bool, done: bool)

  datatype Pins = Pins(start: bool, transposed: bool, reqReady: bool, wordValid: bool, word: nat, coeffReady: bool)

  function Candidate0(g: Gm): nat {
    g.buf % 4096
  }

  function Candidate1(g: Gm): nat {
    g.buf / 4096 % 4096
  }

  // The buffer without its first two candidates
  function BehindPair(g: Gm): nat {
    g.buf / 4096 / 4096
  }

  // poly_base + coeff_cnt[7:0]
  function Put(g: Gm, cnt: nat, v: int): Write {
    Write(true, (g.polyBase + cnt % 256) % 4096, v)
  }

  // GM_REJECT with at least 24 bits: two candidates at once
  function RejectPair(g: Gm): Gm
    requires g.bits >= 24
  {
    var c0, c1 := Candidate0(g), Candidate1(g);
    var h := g.(buf := BehindPair(g), bits := g.bits - 24);
    if c0 < Q then
      if c1 < Q && g.coeffCnt != 255 then
        h.(a := Put(g, g.coeffCnt, c0), b := Put(g, (g.coeffCnt + 1) % 512, c1), coeffCnt := (g.coeffCnt + 2) % 512)
      else h.(a := Put(g, g.coeffCnt, c0), coeffCnt := (g.coeffCnt + 1) % 512)
    else if c1 < Q then h.(a := Put(g, g.coeffCnt, c1), coeffCnt := (g.coeffCnt + 1) % 512)
    else h
  }

  // GM_REJECT with 12 to 23 bits
  function RejectOne(g: Gm): Gm
    requires g.bits >= 12
  {
    var c0 := Candidate0(g);
    var h := g.(buf := g.buf / 4096, bits := g.bits - 12);
    if c0 < Q then h.(a := Put(g, g.coeffCnt, c0), coeffCnt := (g.coeffCnt + 1) % 512) else h
  }

  function RejectStep(g: Gm, p: Pins): Gm {
    if g.coeffCnt == 256 then g.(state := NEXT_POLY)
    else if !p.coeffReady then g
    else if g.bits < 12 then g.(state := NEED_WORD)
    else if g.bits >= 24 then RejectPair(g)
    else RejectOne(g)
  }

  function NextPoly(g: Gm): Gm {
    if g.loopJ + 1 < 2 then g.(loopJ := g.loopJ + 1, polyBase := (g.polyBase + 256) % 4096, state := XOF_INIT)
    else if g.loopI + 1 < 2 then
      g.(loopI := g.loopI + 1, loopJ := 0, polyBase := (g.polyBase + 256) % 4096, state := XOF_INIT)
    else g.(state := DONE)
  }

  // The buffer with a word above its bits
  function TakenIn(buf: nat, bits: nat, word: nat): nat {
    (buf + word * Two(bits)) % Two(128)
  }

  function Tick(g: Gm, p: Pins): Gm {
    var h := g.(a := g.a.(we := false), b := g.b.(we := false), reqValid := false, release := false);
    match g.state
    case IDLE =>
      if p.start then
        h.(loopI := 0, loopJ := 0, coeffCnt := 0, polyBase := 0, buf := 0, bits := 0, state := XOF_INIT, done := false)
      else h.(done := false)
    case XOF_INIT =>
      // the request ends in the index bytes x, y; both orders as xof_absorb takes them
      var (x, y) := if p.transposed then (g.loopI, g.loopJ) else (g.loopJ, g.loopI);
      h.(reqX := x, reqY := y, coeffCnt := 0, buf := 0, bits := 0, state := XOF_ACCEPT)
    case XOF_ACCEPT => h.(reqValid := true, state := if p.reqReady then WAIT_WORD else XOF_ACCEPT)
    case WAIT_WORD => h.(state := NEED_WORD)
    case NEED_WORD =>
      if p.wordValid then
        h.(buf := TakenIn(g.buf, g.bits, p.word), bits := (g.bits + 64) % 256, state := REJECT)
      else h
    case REJECT => RejectStep(h, p)
    case NEXT_POLY => NextPoly(h)
    case DONE => h.(release := true, done := true, state := IDLE)
  }

  // ----- The stream FIFO -----

  type Slots = s: seq<int> | |s| == 8 witness seq(8, i => 0)

  datatype Fifo = Fifo(slots: Slots, rd: nat, wr: nat, count: nat)

  predicate PairValid(f: Fifo) {
    f.count >= 2
  }

  function PopCount(f: Fifo, pairReady: bool): nat {
    if PairValid(f) && pairReady then 2 else 0
  }

  function AfterPop(f: Fifo, pairReady: bool): int {
    f.count - PopCount(f, pairReady)
  }

  // The sampler may still have two coefficients under way when ready drops
  predicate CoeffReady(f: Fifo, pairReady: bool) {
    AfterPop(f, pairReady) <= 4
  }

  function PushCount(g: Gm): nat {
    (if g.a.we then 1 else 0) + (if g.b.we then 1 else 0)
  }

  function FifoTick(f: Fifo, g: Gm, pairReady: bool): Fifo {
    var s := if g.a.we then f.slots[f.wr % 8 := g.a.dout] else f.slots;
    var t := if g.b.we then s[(f.wr + 1) % 8 := g.b.dout] else s;
    Fifo(t, (f.rd + PopCount(f, pairReady)) % 8, (f.wr + PushCount(g)) % 8,
         (f.count - PopCount(f, pairReady) + PushCount(g)) % 16)
  }

  // The pair offered to the consumer
  function Offered(f: Fifo): seq<int> {
    [f.slots[f.rd % 8], f.slots[(f.rd + 1) % 8]]
  }

  // ----- The clocked blocks -----

  const RESET: Gm := Gm(IDLE, 0, 0, 0, 0, 0, 0, NO_WRITE, NO_WRITE, 0, 0, false, false, false)

  // Defaults first, then the assignments of the current state over them
  class MatrixSampler {
    var state: State
    var loopI: nat
    var loopJ: nat
    var coeffCnt: nat
    var polyBase: nat
    var sampleBuf: nat
    var sampleBits: nat
    var a: Write
    var b: Write
    var reqX: nat
    var reqY: nat
    var reqValid: bool
    var release: bool
    var done: bool

    function State(): Gm
      reads this
    {
      Gm(state, loopI, loopJ, coeffCnt, polyBase, sampleBuf, sampleBits, a, b, reqX, reqY, reqValid, release, done)
    }

    // Two candidates, or one, leave the buffer; the accepted ones are written
    method Reject(c0: nat, c1: nat)
      requires sampleBits >= 12 && c0 == Candidate0(State()) && c1 == Candidate1(State())
      modifies this
      ensures State() == if old(sampleBits) >= 24 then RejectPair(old(State())) else RejectOne(old(State()))
    {
      ghost var g := State();
      var cnt := coeffCnt;
      if sampleBits >= 24 {
        sampleBuf, sampleBits := sampleBuf / 4096 / 4096, sampleBits - 24;
        if c0 < Q {
          a := Write(true, (polyBase + cnt % 256) % 4096, c0);
          if c1 < Q && cnt != 255 {
            b := Write(true, (polyBase + (cnt + 1) % 512 % 256) % 4096, c1);
            coeffCnt := (cnt + 2) % 512;
          } else {
            coeffCnt := (cnt + 1) % 512;
          }
        } else if c1 < Q {
          a := Write(true, (polyBase + cnt % 256) % 4096, c1);
          coeffCnt := (cnt + 1) % 512;
        }
      } else {
        sampleBuf, sampleBits := sampleBuf / 4096, sampleBits - 12;
        if c0 < Q {
          a := Write(true, (polyBase + cnt % 256) % 4096, c0);
          coeffCnt := (cnt + 1) % 512;
        }
      }
    }

    // GM_REJECT
    method Look(p: Pins)
      modifies this
      ensures State() == RejectStep(old(State()), p)
    {
      hide RejectPair, RejectOne;
      if coeffCnt == 256 {
        state := NEXT_POLY;
      } else if p.coeffReady {
        if sampleBits < 12 {
          state := NEED_WORD;
        } else {
          Reject(sampleBuf % 4096, sampleBuf / 4096 % 4096);
        }
      }
    }

    // GM_NEXT_POLY
    method Move()
      modifies this
      ensures State() == NextPoly(old(State()))
    {
      if loopJ + 1 < 2 {
        loopJ, polyBase, state := loopJ + 1, (polyBase + 256) % 4096, XOF_INIT;
      } else if loopI + 1 < 2 {
        loopI, loopJ, polyBase, state := loopI + 1, 0, (polyBase + 256) % 4096, XOF_INIT;
      } else {
        state := DONE;
      }
    }

    method Clock(rst: bool, p: Pins)
      modifies this
      ensures State() == if rst then RESET else Tick(old(State()), p)
    {
      if rst {
        state, loopI, loopJ, coeffCnt, polyBase, sampleBuf, sampleBits := IDLE, 0, 0, 0, 0, 0, 0;
        a, b, reqX, reqY, reqValid, release, done := NO_WRITE, NO_WRITE, 0, 0, false, false, false;
      } else {
        Step(p);
      }
    }

    // The states that ask for a stream and take words from it
    method Ask(ghost g: Gm, p: Pins)
      requires State() == g.(a := g.a.(we := false), b := g.b.(we := false), reqValid := false, release := false)
      requires g.state in {XOF_INIT, XOF_ACCEPT, WAIT_WORD, NEED_WORD}
      modifies this
      ensures State() == Tick(g, p)
    {
      hide RejectStep, NextPoly, TakenIn;
      match state {
        case XOF_INIT =>
          if p.transposed {
            reqX, reqY := loopI, loopJ;
          } else {
            reqX, reqY := loopJ, loopI;
          }
          coeffCnt, sampleBuf, sampleBits, state := 0, 0, 0, XOF_ACCEPT;
        case XOF_ACCEPT =>
          reqValid := true;
          if p.reqReady {
            state := WAIT_WORD;
          }
        case WAIT_WORD =>
          state := NEED_WORD;
        case NEED_WORD =>
          if p.wordValid {
            sampleBuf, sampleBits, state := TakenIn(sampleBuf, sampleBits, p.word), (sampleBits + 64) % 256, REJECT;
          }
        case _ => assert false;
      }
    }

    method Step(p: Pins)
      modifies this
      ensures State() == Tick(old(State()), p)
    {
      hide RejectStep, NextPoly, TakenIn;
      ghost var g := State();
      a, b := Write(false, a.addr, a.dout), Write(false, b.addr, b.dout);
      reqValid, release := false, false;
      match state {
        case IDLE =>
          done := false;
          if p.start {
            loopI, loopJ, coeffCnt, polyBase, sampleBuf, sampleBits := 0, 0, 0, 0, 0, 0;
            state := XOF_INIT;
          }
        case XOF_INIT => Ask(g, p);
        case XOF_ACCEPT => Ask(g, p);
        case WAIT_WORD => Ask(g, p);
        case NEED_WORD => Ask(g, p);
        case REJECT => Look(p);
        case NEXT_POLY => Move();
        case DONE =>
          release, done, state := true, true, IDLE;
      }
    }
  }

  class StreamFifo {
    const slots: array<int>
    var rd: nat
    var wr: nat
    var count: nat

    predicate Shaped()
      reads this
    {
      slots.Length == 8
    }

    function State(): Fifo
      requires Shaped()
      reads this, slots
    {
      Fifo(slots[..], rd, wr, count)
    }

    // Reset, or a sampler that is not streaming, empties the queue
    method Clock(rst: bool, streamMode: bool, g: Gm, pairReady: bool)
      requires Shaped()
      modifies this, slots
      ensures Shaped()
      ensures State() == if rst || !streamMode then Fifo(old(slots[..]), 0, 0, 0)
          else FifoTick(old(State()), g, pairReady)
    {
      var f := State();
      if rst {
        rd, wr, count := 0, 0, 0;
      } else if streamMode {
        if g.a.we {
          slots[wr % 8] := g.a.dout;
        }
        if g.b.we {
          slots[(wr + 1) % 8] := g.b.dout;
        }
        rd, wr := (rd + PopCount(f, pairReady)) % 8, (wr + PushCount(g)) % 8;
        count := (count - PopCount(f, pairReady) + PushCount(g)) % 16;
      } else {
        rd, wr, count := 0, 0, 0;
      }
    }
  }
}
