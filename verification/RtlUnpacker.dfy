/** rtl/kyber/kyber512_ct_unpacker.v: the ciphertext unpack engine, a 64-bit reader with two cycles
    of latency, a 128-bit buffer and two decompression lanes. Tick is one clock edge. */
module RtlUnpacker {
  import opened Zetas

  // buf is bit_buf; its bits from number count upwards are zero, so or-ing in a word shifted by
  // count adds it
  datatype Reader = Reader(buf: nat, count: nat, readAddr: nat, raddr: nat, v0: bool, v1: bool)

  datatype Write = Write(we: bool, slot: nat, addr: nat, c0: int, c1: int)

  datatype State = IDLE | U_RUN | V_RUN | DONE

  datatype Engine = Engine(state: State, uPair: nat, vPair: nat, rd: Reader, out: Write, done: bool)

  const U_PAIRS: nat := 256
  const V_PAIRS: nat := 128
  const CT_V_BASE: nat := 640
  const CT_END: nat := 768

  // ----- kyber_multiplier_by_q, kyber_decompress_du and kyber_decompress_dv -----

  function MulByQ(c: nat): nat {
    (2048 * c + 1024 * c + 256 * c + c) % 0x1_0000_0000
  }

  function LaneDu(c: nat): nat {
    (MulByQ(c) + 512) % 0x1_0000_0000 / 1024 % 4096
  }

  function LaneDv(c: nat): nat {
    (MulByQ(c) + 8) % 0x1_0000_0000 / 16 % 4096
  }

  // ----- The reader -----

  function StreamBuf(r: Reader, dout: nat): nat {
    if r.v1 then (r.buf + dout * Two(r.count)) % Two(128) else r.buf
  }

  function StreamCount(r: Reader): nat {
    if r.v1 then (r.count + 64) % 256 else r.count
  }

  // The assignments made in every state
  function Shifted(r: Reader, dout: nat): Reader {
    Reader(StreamBuf(r, dout), StreamCount(r), r.readAddr, r.raddr, false, r.v0)
  }

  // issue_ct_word, at most one read between two latches
  function Issue(m: Reader, r: Reader, end: nat): Reader {
    if !r.v0 && r.readAddr < end then Reader(m.buf, m.count, (r.readAddr + 8) % 2048, r.readAddr, true, m.v1) else m
  }

  function Starved(r: Reader, dout: nat, end: nat): Reader {
    Issue(Shifted(r, dout), r, end)
  }

  function Popped(r: Reader, dout: nat, width: nat, end: nat): Reader
    requires StreamCount(r) >= width
  {
    hide StreamBuf, Two, Issue;
    var m := Reader(StreamBuf(r, dout) / Two(width), StreamCount(r) - width, r.readAddr, r.raddr, false, r.v0);
    if m.count <= 64 then Issue(m, r, end) else m
  }

  function Primed(base: nat): Reader {
    Reader(0, 0, base + 8, base, true, false)
  }

  // ----- The controller -----

  const NO_WRITE: Write := Write(false, 0, 0, 0, 0)

  function Idle(w: Write): Write {
    Write(false, w.slot, w.addr, w.c0, w.c1)
  }

  function UWrite(e: Engine, dout: nat): Write {
    var x := StreamBuf(e.rd, dout) % Two(20);
    Write(true, 4 + e.uPair / 128 % 2, e.uPair % 128, LaneDu(x % Two(10)), LaneDu(x / Two(10)))
  }

  function VWrite(e: Engine, dout: nat): Write {
    var x := StreamBuf(e.rd, dout) % Two(8);
    Write(true, 6, e.vPair % 128, LaneDv(x % Two(4)), LaneDv(x / Two(4)))
  }

  function IdleStep(e: Engine, start: bool): Engine {
    Engine(if start then U_RUN else IDLE, 0, 0,
           Reader(0, 0, 8, if start then 0 else e.rd.raddr, start, false), Idle(e.out), false)
  }

  function UStep(e: Engine, dout: nat): Engine {
    if StreamCount(e.rd) < 20 then Engine(U_RUN, e.uPair, e.vPair, Starved(e.rd, dout, CT_V_BASE), Idle(e.out), false)
    else if e.uPair + 1 == U_PAIRS then Engine(V_RUN, e.uPair, 0, Primed(CT_V_BASE), UWrite(e, dout), false)
    else Engine(U_RUN, (e.uPair + 1) % 512, e.vPair, Popped(e.rd, dout, 20, CT_V_BASE), UWrite(e, dout), false)
  }

  function VStep(e: Engine, dout: nat): Engine {
    if StreamCount(e.rd) < 8 then Engine(V_RUN, e.uPair, e.vPair, Starved(e.rd, dout, CT_END), Idle(e.out), false)
    else if e.vPair + 1 == V_PAIRS then
      Engine(DONE, e.uPair, e.vPair, Popped(e.rd, dout, 8, CT_END), VWrite(e, dout), false)
    else Engine(V_RUN, e.uPair, (e.vPair + 1) % 512, Popped(e.rd, dout, 8, CT_END), VWrite(e, dout), false)
  }

  const RESET: Engine := Engine(IDLE, 0, 0, Reader(0, 0, 0, 0, false, false), NO_WRITE, false)

  function Tick(e: Engine, rst: bool, start: bool, dout: nat): Engine {
    if rst then RESET
    else
    match e.state
    case IDLE => IdleStep(e, start)
    case U_RUN => UStep(e, dout)
    case V_RUN => VStep(e, dout)
    case DONE => Engine(IDLE, e.uPair, e.vPair, Shifted(e.rd, dout), Idle(e.out), true)
  }

  // ----- The clocked block -----

  // Defaults first, then the assignments of the current state over them
  class UnpackEngine {
    var state: State
    var uPair: nat
    var vPair: nat
    var rd: Reader
    var out: Write
    var done: bool

    function State(): Engine
      reads this
    {
      Engine(state, uPair, vPair, rd, out, done)
    }

    // issue_ct_word; was: the registers before the edge
    method IssueCtWord(end: nat, was: Reader)
      modifies `rd
      ensures rd == Issue(old(rd), was, end)
    {
      if !was.v0 && was.readAddr < end {
        rd := Reader(rd.buf, rd.count, (was.readAddr + 8) % 2048, was.readAddr, true, rd.v1);
      }
    }

    // The bits of one pair leave the buffer, and a read is issued if a word will fit
    method Consume(width: nat, end: nat, dout: nat, was: Reader)
      requires StreamCount(was) >= width && rd == Shifted(was, dout)
      modifies `rd
      ensures rd == Popped(was, dout, width, end)
    {
      hide StreamBuf, Two;
      rd := Reader(StreamBuf(was, dout) / Two(width), StreamCount(was) - width, rd.readAddr, rd.raddr, rd.v0, rd.v1);
      if rd.count <= 64 {
        IssueCtWord(end, was);
      }
    }

    method Clock(rst: bool, start: bool, dout: nat)
      modifies this
      ensures State() == Tick(old(State()), rst, start, dout)
    {
      hide StreamBuf, UWrite, VWrite, Popped, Two;
      if rst {
        state, uPair, vPair, out, done := IDLE, 0, 0, NO_WRITE, false;
        rd := Reader(0, 0, 0, 0, false, false);
        return;
      }
      var e := State();
      out, done := Idle(out), false;
      rd := Shifted(rd, dout);
      match e.state {
        case IDLE =>
          uPair, vPair, rd := 0, 0, Reader(0, 0, 8, rd.raddr, false, false);
          if start {
            state, rd := U_RUN, Reader(0, 0, 8, 0, true, false);
          }
        case U_RUN =>
          if StreamCount(e.rd) < 20 {
            IssueCtWord(CT_V_BASE, e.rd);
          } else {
            out := UWrite(e, dout);
            Consume(20, CT_V_BASE, dout, e.rd);
            if uPair + 1 == U_PAIRS {
              vPair, rd, state := 0, Primed(CT_V_BASE), V_RUN;
            } else {
              uPair := (uPair + 1) % 512;
            }
          }
        case V_RUN =>
          if StreamCount(e.rd) < 8 {
            IssueCtWord(CT_END, e.rd);
          } else {
            out := VWrite(e, dout);
            Consume(8, CT_END, dout, e.rd);
            if vPair + 1 == V_PAIRS {
              state := DONE;
            } else {
              vPair := (vPair + 1) % 512;
            }
          }
        case DONE =>
          done, state := true, IDLE;
      }
    }
  }
}
