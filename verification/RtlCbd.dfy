/** The streaming centred binomial sampler (rtl/kyber/kyber_cbd_sampler.v): 64-bit words in
    whenever the hash has them, one or two coefficients out per cycle. Tick is one clock edge. */
module RtlCbd {
  import opened Zetas

  datatype State = IDLE | PROCESS | FINISH

  // we, ram_addr, poly_coeffs_out and the b port
  datatype Write = Write(we: bool, addr: nat, value: int)

  // buf is bit_buf; its bits from number avail upwards are zero, so or-ing in a word shifted by
  // avail adds it
  datatype Sampler = Sampler(state: State, buf: nat, avail: nat, cnt: nat, eta3: bool, inputDone: bool,
                             a: Write, b: Write, done: bool)

  datatype Pins = Pins(rst: bool, start: bool, eta3Mode: bool, valid: bool, data: nat, last: bool, base: nat)

  // ----- cbd_core_signed -----

  // The six input bits, first one lowest
  function Core(d0: nat, d1: nat, d2: nat, d3: nat, d4: nat, d5: nat): int {
    var a, b := (d0 + d1 + d2) % 4, (d3 + d4 + d5) % 4;
    (a - b + 8) % 16 - 8
  }

  function Bit(x: nat, k: nat): nat {
    hide Two;
    x / Two(k) % 2
  }

  // Bits 4 p .. 4 p + 3 spread over six inputs, or bits 6 p .. 6 p + 5
  function Lane(x: nat, eta3: bool, p: nat): int {
    if eta3 then
      Core(Bit(x, 6 * p), Bit(x, 6 * p + 1), Bit(x, 6 * p + 2), Bit(x, 6 * p + 3), Bit(x, 6 * p + 4), Bit(x, 6 * p + 5))
    else
      Core(Bit(x, 4 * p), Bit(x, 4 * p + 1), 0, Bit(x, 4 * p + 2), Bit(x, 4 * p + 3), 0)
  }

  // ----- Wires -----

  predicate Ready(s: Sampler) {
    s.state == PROCESS && !s.inputDone && s.avail <= 64
  }

  predicate Accepts(s: Sampler, p: Pins) {
    p.valid && Ready(s)
  }

  function Step1(s: Sampler): nat {
    if s.eta3 then 6 else 4
  }

  function SampleBuf(s: Sampler, p: Pins): nat {
    if Accepts(s, p) then (s.buf + p.data * Two(s.avail)) % Two(128) else s.buf
  }

  function Available(s: Sampler, p: Pins): nat {
    (s.avail + if Accepts(s, p) then 64 else 0) % 256
  }

  predicate CanEmit(s: Sampler, p: Pins) {
    s.state == PROCESS && s.cnt < 256 && Available(s, p) >= Step1(s)
  }

  predicate EmitTwo(s: Sampler, p: Pins) {
    CanEmit(s, p) && s.cnt < 255 && Available(s, p) >= 2 * Step1(s)
  }

  function Emits(s: Sampler, p: Pins): nat {
    if EmitTwo(s, p) then 2 else if CanEmit(s, p) then 1 else 0
  }

  function Put(base: nat, k: nat, v: int): Write {
    Write(true, (base + k) % 2048, v)
  }

  function Off(w: Write): Write {
    Write(false, w.addr, w.value)
  }

  // ----- Next state -----

  // bit_buf, bits_avail, coeff_cnt and input_done while processing
  function BufNext(s: Sampler, p: Pins): nat {
    hide Two, SampleBuf;
    SampleBuf(s, p) / Two(Emits(s, p) * Step1(s))
  }

  function Process(s: Sampler, p: Pins): Sampler {
    var n := Emits(s, p);
    Sampler(if (n == 2 && s.cnt >= 254) || (n == 1 && s.cnt == 255) then FINISH else PROCESS,
            BufNext(s, p), Available(s, p) - n * Step1(s), if n > 0 then (s.cnt + n) % 512 else s.cnt, s.eta3,
            s.inputDone || (Accepts(s, p) && p.last),
            if n > 0 then Put(p.base, s.cnt, Lane(SampleBuf(s, p), s.eta3, 0)) else Off(s.a),
            if n > 1 then Put(p.base, s.cnt + 1, Lane(SampleBuf(s, p), s.eta3, 1)) else Off(s.b),
            s.done)
  }

  const RESET: Sampler := Sampler(IDLE, 0, 0, 0, false, false, Write(false, 0, 0), Write(false, 0, 0), false)

  function Tick(s: Sampler, p: Pins): Sampler {
    if p.rst then RESET
    else
      match s.state
      case IDLE =>
        if p.start then Sampler(PROCESS, 0, 0, 0, p.eta3Mode, false, Off(s.a), Off(s.b), false)
        else Sampler(IDLE, s.buf, s.avail, s.cnt, s.eta3, s.inputDone, Off(s.a), Off(s.b), false)
      case PROCESS => Process(s, p)
      case FINISH => Sampler(IDLE, s.buf, s.avail, s.cnt, s.eta3, s.inputDone, Off(s.a), Off(s.b), true)
  }

  // ----- The clocked block -----

  class CbdSampler {
    var state: State
    var bitBuf: nat
    var bitsAvail: nat
    var coeffCnt: nat
    var savedEta3: bool
    var inputDone: bool
    var a: Write
    var b: Write
    var done: bool

    function State(): Sampler
      reads this
    {
      Sampler(state, bitBuf, bitsAvail, coeffCnt, savedEta3, inputDone, a, b, done)
    }

    method Clock(p: Pins)
      modifies this
      ensures State() == Tick(old(State()), p)
    {
      hide SampleBuf, Available, Lane, Two;
      if p.rst {
        state, a, b, coeffCnt := IDLE, Write(false, 0, 0), Write(false, 0, 0), 0;
        bitBuf, bitsAvail, done, savedEta3, inputDone := 0, 0, false, false, false;
        return;
      }
      var s := State();
      match s.state {
        case IDLE =>
          done, a, b := false, Off(a), Off(b);
          if p.start {
            bitBuf, bitsAvail, savedEta3, coeffCnt, inputDone, state := 0, 0, p.eta3Mode, 0, false, PROCESS;
          }
        case PROCESS =>
          a, b := Off(a), Off(b);
          if CanEmit(s, p) {
            a := Put(p.base, s.cnt, Lane(SampleBuf(s, p), s.eta3, 0));
            if EmitTwo(s, p) {
              b := Put(p.base, s.cnt + 1, Lane(SampleBuf(s, p), s.eta3, 1));
            }
            coeffCnt := (s.cnt + if EmitTwo(s, p) then 2 else 1) % 512;
            if (EmitTwo(s, p) && s.cnt >= 254) || (!EmitTwo(s, p) && s.cnt == 255) {
              state := FINISH;
            }
          }
          bitBuf, bitsAvail := BufNext(s, p), Available(s, p) - Emits(s, p) * Step1(s);
          if Accepts(s, p) && p.last {
            inputDone := true;
          }
        case FINISH =>
          a, b, done, state := Off(a), Off(b), true, IDLE;
      }
    }
  }
}
