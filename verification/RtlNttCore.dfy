/** rtl/kyber/kyber_ntt_core.v: the controller, the address generator, the two ping-pong RAMs and
    the delayed write-back around the butterfly pipeline. Tick is one clock edge. */
module RtlNttCore {
  import opened Zetas
  import opened RtlMath
  import B = RtlButterfly

  // ----- kyber_ntt_address_generator -----

  function StageEff(stage: nat, inv: bool): (e: nat)
    requires stage < 8
    ensures e < 8
  {
    if inv then (6 - stage) % 8 else stage
  }

  // 128 >> stage_eff
  function Len(stage: nat, inv: bool): (r: nat)
    requires stage < 8
    ensures r > 0
  {
    TwoMonotone(StageEff(stage, inv), BITS);
    128 / Two(StageEff(stage, inv))
  }

  // cnt >> (7 - stage_eff); the low bits are the offset
  function Group(stage: nat, inv: bool, cnt: nat): nat
    requires stage < 8
  {
    cnt * Two(StageEff(stage, inv)) / 128
  }

  function AddrA(stage: nat, inv: bool, cnt: nat): nat
    requires stage < 8
  {
    var len := Len(stage, inv);
    (Group(stage, inv, cnt) * (2 * len) + cnt % len) % 256
  }

  function AddrB(stage: nat, inv: bool, cnt: nat): nat
    requires stage < 8
  {
    (AddrA(stage, inv, cnt) + Len(stage, inv)) % 256
  }

  function TwiddleAddr(stage: nat, inv: bool, cnt: nat): nat
    requires stage < 8
  {
    (if inv then 2 * Two(StageEff(stage, inv)) - 1 - Group(stage, inv, cnt)
     else Two(stage) + Group(stage, inv, cnt)) % 128
  }

  // ----- State -----

  datatype Fsm = IDLE | WARM | CALC | PREP | DONE

  type Ram = s: seq<int> | |s| == 256 witness seq(256, i => 0)

  datatype Pair = Pair(a: int, b: int)

  // One entry of the write-back delay line
  datatype Slot = Slot(addrA: nat, addrB: nat, we: bool)

  type Slots = s: seq<Slot> | |s| == 10 witness seq(10, i => Slot(0, 0, false))

  datatype Core = Core(fsm: Fsm, stage: nat, cnt: nat, warm: nat, done: bool,
                       ram0: Ram, ram1: Ram, raw0: Pair, raw1: Pair, reg0: Pair, reg1: Pair,
                       zetaRaw: int, zeta: int, bf: B.Butterfly, slots: Slots, lastRam1: bool)

  datatype Pins = Pins(rst: bool, start: bool, mode: bool, gsEn: bool,
                       extWe: bool, extWeB: bool, extAddr: nat, extAddrB: nat, extDin: int, extDinB: int,
                       extTwiddle: nat)

  predicate Valid(c: Core) {
    c.stage < 8 && B.Valid(c.bf) && forall d :: 0 <= d < 10 ==> c.slots[d].addrA < 256 && c.slots[d].addrB < 256
  }

  predicate ValidPins(p: Pins) {
    p.extAddr < 256 && p.extAddrB < 256 && p.extTwiddle < 128
  }

  // ----- Wires -----

  function Inverse(p: Pins): bool {
    p.gsEn && p.mode
  }

  predicate EvenStage(c: Core) {
    c.stage % 2 == 0
  }

  function BfInput(c: Core, p: Pins): BfIn {
    if EvenStage(c) then BfIn(p.mode, c.reg0.a, c.reg0.b, c.zeta) else BfIn(p.mode, c.reg1.a, c.reg1.b, c.zeta)
  }

  predicate AnyPending(s: Slots) {
    exists d :: 0 <= d < 10 && s[d].we
  }

  // One RAM port request
  datatype Port = Port(we: bool, addr: nat, din: int)

  function IssuedA(c: Core, p: Pins): (a: nat)
    requires c.stage < 8
    ensures a < 256
  {
    AddrA(c.stage, Inverse(p), c.cnt % 128)
  }

  function IssuedB(c: Core, p: Pins): (a: nat)
    requires c.stage < 8
    ensures a < 256
  {
    AddrB(c.stage, Inverse(p), c.cnt % 128)
  }

  function Ram0PortA(c: Core, p: Pins): (r: Port)
    requires Valid(c) && ValidPins(p)
    ensures r.addr < 256
  {
    var last := c.slots[9];
    if c.fsm == IDLE then Port(p.extWe, p.extAddr, p.extDin)
    else if !EvenStage(c) && last.we then Port(true, last.addrA, c.bf.barA.diff)
    else Port(false, IssuedA(c, p), c.bf.barA.diff)
  }

  function Ram0PortB(c: Core, p: Pins): (r: Port)
    requires Valid(c) && ValidPins(p)
    ensures r.addr < 256
  {
    var last := c.slots[9];
    if c.fsm == IDLE then Port(p.extWeB, p.extAddrB, p.extDinB)
    else if !EvenStage(c) && last.we then Port(true, last.addrB, c.bf.barB.diff)
    else Port(false, IssuedB(c, p), c.bf.barB.diff)
  }

  // RAM1 is read-only from outside, at ext_addr and ext_addr + 1
  function Ram1PortA(c: Core, p: Pins): (r: Port)
    requires Valid(c) && ValidPins(p)
    ensures r.addr < 256
  {
    var last := c.slots[9];
    if c.fsm == IDLE then Port(false, p.extAddr, c.bf.barA.diff)
    else if EvenStage(c) && last.we then Port(true, last.addrA, c.bf.barA.diff)
    else Port(false, IssuedA(c, p), c.bf.barA.diff)
  }

  function Ram1PortB(c: Core, p: Pins): (r: Port)
    requires Valid(c) && ValidPins(p)
    ensures r.addr < 256
  {
    var last := c.slots[9];
    if c.fsm == IDLE then Port(false, (p.extAddr + 1) % 256, c.bf.barB.diff)
    else if EvenStage(c) && last.we then Port(true, last.addrB, c.bf.barB.diff)
    else Port(false, IssuedB(c, p), c.bf.barB.diff)
  }

  // kyber_dual_port_ram: both writes land, reads return the old words
  function RamNext(r: Ram, a: Port, b: Port): Ram
    requires a.addr < 256 && b.addr < 256
  {
    var x := if a.we then r[a.addr := a.din] else r;
    if b.we then x[b.addr := b.din] else x
  }

  function RamRead(r: Ram, a: Port, b: Port): Pair
    requires a.addr < 256 && b.addr < 256
  {
    Pair(r[a.addr], r[b.addr])
  }

  // ----- Next state -----

  function WarmLast(p: Pins): nat {
    if Inverse(p) then 3 else 2
  }

  // The controller: state, stage, cnt, warm_cnt, done
  function Control(c: Core, p: Pins): (Fsm, nat, nat, nat, bool) {
    match c.fsm
    case IDLE => if p.start then (WARM, 0, 0, 0, false) else (IDLE, c.stage, c.cnt, c.warm, false)
    case WARM =>
      if c.warm == WarmLast(p) then (CALC, c.stage, 0, 0, c.done) else (WARM, c.stage, c.cnt, (c.warm + 1) % 16, c.done)
    case CALC =>
      if c.cnt == 128 then (PREP, c.stage, 0, c.warm, c.done) else (CALC, c.stage, (c.cnt + 1) % 256, c.warm, c.done)
    case PREP =>
      if AnyPending(c.slots) then (PREP, c.stage, c.cnt, c.warm, c.done)
      else if c.stage == 6 then (DONE, c.stage, c.cnt, c.warm, c.done)
      else (WARM, (c.stage + 1) % 8, c.cnt, 0, c.done)
    case DONE => (IDLE, c.stage, c.cnt, c.warm, true)
  }

  function NewSlot(c: Core, p: Pins): Slot
    requires c.stage < 8
  {
    Slot(IssuedA(c, p), IssuedB(c, p), c.fsm == CALC && c.cnt < 128)
  }

  function RomAddr(c: Core, p: Pins): nat
    requires c.stage < 8
  {
    if c.fsm == IDLE then p.extTwiddle else TwiddleAddr(c.stage, Inverse(p), c.cnt % 128)
  }

  function Tick(c: Core, p: Pins): (n: Core)
    requires Valid(c) && ValidPins(p)
  {
    var (fsm, stage, cnt, warm, done) := if p.rst then (IDLE, 0, 0, 0, false) else Control(c, p);
    var zero := Pair(0, 0);
    Core(fsm, stage, cnt, warm, done,
         RamNext(c.ram0, Ram0PortA(c, p), Ram0PortB(c, p)), RamNext(c.ram1, Ram1PortA(c, p), Ram1PortB(c, p)),
         RamRead(c.ram0, Ram0PortA(c, p), Ram0PortB(c, p)), RamRead(c.ram1, Ram1PortA(c, p), Ram1PortB(c, p)),
         if p.rst then zero else c.raw0, if p.rst then zero else c.raw1,
         Rom(RomAddr(c, p)), if p.rst then 0 else c.zetaRaw,
         B.Step(c.bf, p.rst, BfInput(c, p)),
         if p.rst then seq(10, d => Slot(0, 0, false)) else [NewSlot(c, p)] + c.slots[..9],
         if p.rst then true
         else if c.fsm == IDLE && (p.extWe || p.extWeB) then false
         else if c.fsm == DONE then true else c.lastRam1)
  }

  lemma TickValid(c: Core, p: Pins)
    requires Valid(c) && ValidPins(p)
    ensures Valid(Tick(c, p))
  {
    hide Rom, AddrA, AddrB, TwiddleAddr, BfInput, AnyPending;
  }

  // The registers after an edge without reset
  lemma TickFields(c: Core, p: Pins)
    requires Valid(c) && ValidPins(p) && !p.rst
    ensures var m := Tick(c, p);
      && (m.fsm, m.stage, m.cnt, m.warm, m.done) == Control(c, p)
      && m.ram0 == RamNext(c.ram0, Ram0PortA(c, p), Ram0PortB(c, p))
      && m.ram1 == RamNext(c.ram1, Ram1PortA(c, p), Ram1PortB(c, p))
      && m.raw0 == RamRead(c.ram0, Ram0PortA(c, p), Ram0PortB(c, p))
      && m.raw1 == RamRead(c.ram1, Ram1PortA(c, p), Ram1PortB(c, p))
      && m.reg0 == c.raw0 && m.reg1 == c.raw1 && m.zetaRaw == Rom(RomAddr(c, p)) && m.zeta == c.zetaRaw
      && m.bf == B.Step(c.bf, false, BfInput(c, p)) && m.slots == [NewSlot(c, p)] + c.slots[..9]
  {
    hide Control, RamNext, RamRead, Rom, RomAddr, BfInput, NewSlot, Ram0PortA, Ram0PortB, Ram1PortA, Ram1PortB,
      B.Step;
  }

  lemma ValidParts(c: Core)
    requires Valid(c)
    ensures c.stage < 8 && B.Valid(c.bf)
  {
  }
}
