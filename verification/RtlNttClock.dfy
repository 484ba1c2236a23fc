/** The clocked blocks of kyber_ntt_core as they are written: at each edge the new register values
    are computed from the old ones and committed together. Clock is proved to compute Tick. */
module RtlNttClock {
  import opened RtlMath
  import opened RtlNttCore

  datatype Controller = Controller(fsm: Fsm, stage: nat, cnt: nat, warm: nat, done: bool)

  // RAM and ROM outputs and their registers
  datatype Fetched = Fetched(raw0: Pair, raw1: Pair, reg0: Pair, reg1: Pair, zetaRaw: int, zeta: int)

  class NttCore {
    const ram0: array<int>
    const ram1: array<int>
    const delay: array<Slot>
    var control: Controller
    var fetched: Fetched
    var butterfly: B.Butterfly
    var lastRam1: bool

    predicate Shaped()
      reads this
    {
      ram0.Length == 256 && ram1.Length == 256 && delay.Length == 10 && ram0 != ram1
    }

    function State(): Core
      requires Shaped()
      reads this, ram0, ram1, delay
    {
      Core(control.fsm, control.stage, control.cnt, control.warm, control.done, ram0[..], ram1[..],
           fetched.raw0, fetched.raw1, fetched.reg0, fetched.reg1, fetched.zetaRaw, fetched.zeta,
           butterfly, delay[..], lastRam1)
    }

    // One RAM: two ports, old data on the outputs
    static method ClockRam(ram: array<int>, a: Port, b: Port) returns (out: Pair)
      requires ram.Length == 256 && a.addr < 256 && b.addr < 256
      modifies ram
      ensures ram[..] == RamNext(old(ram[..]), a, b) && out == RamRead(old(ram[..]), a, b)
    {
      out := Pair(ram[a.addr], ram[b.addr]);
      if a.we {
        ram[a.addr] := a.din;
      }
      if b.we {
        ram[b.addr] := b.din;
      }
    }

    // The write-back delay line moves up one place
    method ShiftDelay(first: Slot)
      requires Shaped()
      modifies delay
      ensures delay[..] == [first] + old(delay[..9])
    {
      var i := 9;
      while i > 0
        invariant 0 <= i <= 9
        invariant forall d :: 0 <= d <= i ==> delay[d] == old(delay[d])
        invariant forall d :: i < d < 10 ==> delay[d] == old(delay[d - 1])
      {
        delay[i] := delay[i - 1];
        i := i - 1;
      }
      delay[0] := first;
    }

    method ClearDelay()
      requires Shaped()
      modifies delay
      ensures delay[..] == seq(10, d => Slot(0, 0, false))
    {
      var i := 0;
      while i < 10
        invariant 0 <= i <= 10
        invariant forall d :: 0 <= d < i ==> delay[d] == Slot(0, 0, false)
      {
        delay[i] := Slot(0, 0, false);
        i := i + 1;
      }
    }

    // state, stage, cnt, warm_cnt and done
    method ClockControl(c: Core, p: Pins)
      requires control == Controller(c.fsm, c.stage, c.cnt, c.warm, c.done)
      modifies `control
      ensures var t := if p.rst then (IDLE, 0, 0, 0, false) else Control(c, p);
        control == Controller(t.0, t.1, t.2, t.3, t.4)
    {
      hide AnyPending;
      if p.rst {
        control := Controller(IDLE, 0, 0, 0, false);
        return;
      }
      match c.fsm {
        case IDLE =>
          if p.start {
            control := Controller(WARM, 0, 0, 0, false);
          } else {
            control := control.(done := false);
          }
        case WARM =>
          if c.warm == WarmLast(p) {
            control := control.(fsm := CALC, cnt := 0, warm := 0);
          } else {
            control := control.(warm := (c.warm + 1) % 16);
          }
        case CALC =>
          if c.cnt == 128 {
            control := control.(fsm := PREP, cnt := 0);
          } else {
            control := control.(cnt := (c.cnt + 1) % 256);
          }
        case PREP =>
          if !AnyPending(c.slots) {
            if c.stage == 6 {
              control := control.(fsm := DONE);
            } else {
              control := control.(fsm := WARM, stage := (c.stage + 1) % 8, warm := 0);
            }
          }
        case DONE =>
          control := control.(fsm := IDLE, done := true);
      }
    }

    method Clock(p: Pins)
      requires Shaped() && Valid(State()) && ValidPins(p)
      modifies this, ram0, ram1, delay
      ensures Shaped() && Valid(State()) && State() == Tick(old(State()), p)
    {
      hide Rom, AddrA, AddrB, TwiddleAddr, RamNext, RamRead, Control, BfInput, NewSlot, RomAddr, Ram0PortA, Ram0PortB,
        Ram1PortA, Ram1PortB, B.Step, Valid;
      var c := State();
      TickValid(c, p);
      ValidParts(c);
      var out0 := ClockRam(ram0, Ram0PortA(c, p), Ram0PortB(c, p));
      var out1 := ClockRam(ram1, Ram1PortA(c, p), Ram1PortB(c, p));
      if p.rst {
        ClearDelay();
      } else {
        ShiftDelay(NewSlot(c, p));
      }
      ClockControl(c, p);
      if p.rst {
        fetched := Fetched(out0, out1, Pair(0, 0), Pair(0, 0), Rom(RomAddr(c, p)), 0);
      } else {
        fetched := Fetched(out0, out1, c.raw0, c.raw1, Rom(RomAddr(c, p)), c.zetaRaw);
      }
      butterfly := B.Step(c.bf, p.rst, BfInput(c, p));
      lastRam1 := p.rst || (c.fsm == DONE) || (c.lastRam1 && !(c.fsm == IDLE && (p.extWe || p.extWeB)));
    }
  }
}
