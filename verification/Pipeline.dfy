/** The registers, wires and clocked block of rv32i_2stage_wb, the two-stage pipelined core of
    rtl/cpu/rv32i_2stage_wb.v. Tick is its next-state function; class Cpu.Processor is the clocked block. */
module Pipeline {
  import opened Rv32
  import opened Machine

  // The input pins sampled at a clock edge
  datatype Pins = Pins(rst: bool, irq: bool, ack: bool, err: bool, dat: Word)

  // Every register of the core. id holds the decoded id_ex_* fields, id.illegal the shadow bit
  datatype Core = Core(
    pc: Word, fetchPc: Word, fetchPending: bool, dataPending: bool,
    ifValid: bool, ifPc: Word, ifInstr: Word,
    idValid: bool, idPc: Word, idInstr: Word, idA: Word, idB: Word, id: Control,
    csrs: Csrs, adr: Word, out: Word, sel: bv4, we: bool, cyc: bool, stb: bool, busIsData: bool,
    trap: bool, halted: bool, faultPc: Word, faultCause: Word, regs: Regs)

  // ----- Wires -----

  predicate Done(p: Pins) {
    p.ack || p.err
  }

  predicate FetchDone(c: Core, p: Pins) {
    c.fetchPending && Done(p) && !c.busIsData
  }

  predicate MemDone(c: Core, p: Pins) {
    c.dataPending && Done(p) && c.busIsData
  }

  function AluWire(c: Core): Word {
    AluOut(c.id, c.idPc, c.idA, c.idB)
  }

  predicate Misaligned(c: Core) {
    LoadMisaligned(c.id, AluWire(c)) || StoreMisaligned(c.id, AluWire(c))
  }

  predicate BranchTaken(c: Core) {
    c.idValid && c.id.branch && BranchCondition(c.id.funct3, c.idA, c.idB)
  }

  predicate JumpWire(c: Core) {
    c.idValid && (c.id.jal || c.id.jalr || BranchTaken(c))
  }

  predicate ExecActive(c: Core, p: Pins) {
    FetchDone(c, p) && c.idValid
  }

  predicate SyncException(c: Core, p: Pins) {
    ExecActive(c, p) && (c.id.illegal || Misaligned(c))
  }

  predicate DataAccess(c: Core, p: Pins) {
    ExecActive(c, p) && !SyncException(c, p) && (c.id.memRead || c.id.memWrite)
  }

  predicate ControlRedirect(c: Core, p: Pins) {
    ExecActive(c, p) && !SyncException(c, p) && (JumpWire(c) || (c.idValid && c.id.mret))
  }

  predicate IrqEnabled(c: Core) {
    c.csrs.mstatus & 8 != 0 && c.csrs.mie & 0x800 != 0
  }

  predicate IrqPending(c: Core, p: Pins) {
    ExecActive(c, p) && !SyncException(c, p) && !DataAccess(c, p) && !ControlRedirect(c, p) && p.irq && IrqEnabled(c)
  }

  predicate Idle(c: Core, p: Pins) {
    && !((c.fetchPending && !FetchDone(c, p)) || (c.dataPending && !MemDone(c, p)))
    && !c.fetchPending && !c.dataPending && !(c.cyc && c.stb)
  }

  datatype Trap = Trap(taken: bool, cause: Word, pc: Word)

  function TrapWire(c: Core, p: Pins): Trap {
    if Idle(c, p) && !c.halted && c.pc & 3 != 0 then Trap(true, CAUSE_MISALIGNED, c.pc)
    else if ExecActive(c, p) && c.id.illegal then Trap(true, CAUSE_ILLEGAL, c.idPc)
    else if ExecActive(c, p) && Misaligned(c) then Trap(true, CAUSE_MISALIGNED, c.idPc)
    else if FetchDone(c, p) && p.err && !ControlRedirect(c, p) then Trap(true, CAUSE_INSTR_BUS, c.fetchPc)
    else if MemDone(c, p) && p.err then Trap(true, CAUSE_DATA_BUS, c.idPc)
    else if IrqPending(c, p) then Trap(true, MCAUSE_EXT_IRQ, c.fetchPc & 0xFFFF_FFFE)
    else if Idle(c, p) && !c.halted && p.irq && IrqEnabled(c) then Trap(true, MCAUSE_EXT_IRQ, c.pc & 0xFFFF_FFFE)
    else Trap(false, 0, c.pc)
  }

  predicate Flush(c: Core, p: Pins) {
    TrapWire(c, p).taken || ControlRedirect(c, p)
  }

  function NextPc(c: Core, p: Pins): Word {
    if TrapWire(c, p).taken then TrapVector(c.csrs)
    else if c.idValid && c.id.mret then c.csrs.mepc
    else if c.id.jalr || c.id.jal || BranchTaken(c) then JumpTarget(c.id, c.idPc, c.idA)
    else PcPlus4(c.idPc)
  }

  // Writeback of an instruction that completes in the execute cycle
  predicate WritesResult(c: Core, p: Pins) {
    && FetchDone(c, p) && c.idValid && c.id.regWrite && !c.id.memRead && !c.id.memWrite && !c.id.mret
    && !c.id.illegal && !Misaligned(c)
  }

  // Writeback of a load when its data arrives
  predicate WritesLoad(c: Core, p: Pins) {
    MemDone(c, p) && c.idValid && c.id.memRead && !p.err
  }

  predicate RfEnable(c: Core, p: Pins) {
    (WritesResult(c, p) || WritesLoad(c, p)) && c.id.rd != 0
  }

  function RfAddr(c: Core, p: Pins): bv5 {
    if WritesResult(c, p) || WritesLoad(c, p) then c.id.rd else 0
  }

  function RfData(c: Core, p: Pins): Word {
    if WritesResult(c, p) then Result(c.id, c.idPc, AluWire(c), c.csrs, p.irq)
    else if WritesLoad(c, p) then LoadExtend(p.dat, AluWire(c) & 3, c.id.funct3)
    else 0
  }

  function DecodedWord(c: Core, p: Pins): Word {
    if FetchDone(c, p) && !p.err then p.dat else c.ifInstr
  }

  // A source operand of the instruction being decoded, with the writeback bypass
  function Operand(c: Core, p: Pins, r: bv5): Word {
    if RfEnable(c, p) && RfAddr(c, p) != 0 && RfAddr(c, p) == r then RfData(c, p) else RegRead(c.regs, r)
  }

  // ----- Next state -----

  // What every clock edge does before the cases: trap_o drops, a finished bus cycle is released,
  // the register file takes its write
  function Released(c: Core, p: Pins): Core {
    var q := c.(trap := false, regs := RegWrite(c.regs, RfEnable(c, p), RfAddr(c, p), RfData(c, p)));
    if Done(p) then q.(cyc := false, stb := false, we := false, fetchPending := false, dataPending := false) else q
  }

  const NOP: Control :=
    Control(0, 0, 0, 0, 0, Add, false, false, false, WbAlu, false, false, false, false, false,
            false, CsrWrite, false, 0, false, false)

  function ResetState(regs: Regs, resetVector: Word, irqVector: Word): Core {
    Core(resetVector, resetVector, false, false, false, 0, 0, false, 0, 0, 0, 0, NOP,
         Csrs(0, 0, irqVector, 0, 0), 0, 0, 0, false, false, false, false, false, false, 0, 0, regs)
  }

  // Requests the word at c.pc
  function IssueFetch(c: Core): Core {
    c.(fetchPc := c.pc, adr := c.pc, out := 0, sel := 0xF, we := false, cyc := true, stb := true,
       busIsData := false, pc := PcPlus4(c.pc), fetchPending := true, dataPending := false)
  }

  // Moves the decoded instruction into ID/EX
  function Latch(q: Core, c: Core, p: Pins, pc: Word, instr: Word): Core {
    var d := Decode(DecodedWord(c, p));
    q.(ifValid := false, idValid := true, idPc := pc, idInstr := instr, id := d,
       idA := Operand(c, p, d.rs1), idB := Operand(c, p, d.rs2))
  }

  function SelWire(c: Core): bv4 {
    if c.id.memWrite then StoreSel(AluWire(c) & 3, c.id.funct3) else 0xF
  }

  function IssueData(q: Core, c: Core, p: Pins): Core {
    var alu := AluWire(c);
    q.(ifValid := !p.err, ifPc := c.fetchPc, ifInstr := p.dat, adr := alu,
       out := StoreData(c.idB, alu & 3, c.id.funct3),
       sel := SelWire(c), we := c.id.memWrite, cyc := true, stb := true, busIsData := true, fetchPending := false,
         dataPending := true)
  }

  function Goto(q: Core, pc: Word): Core {
    q.(pc := pc, fetchPc := pc, ifValid := false, idValid := false, fetchPending := false, dataPending := false)
  }

  function EnterTrap(q: Core, t: Trap): Core {
    q.(csrs := TrapCsrs(q.csrs, t.cause, t.pc), faultPc := t.pc, faultCause := t.cause,
       trap := t.cause != MCAUSE_EXT_IRQ)
  }

  function Tick(c: Core, p: Pins, resetVector: Word, irqVector: Word): Core {
    var q := Released(c, p);
    var t := TrapWire(c, p);
    if p.rst then ResetState(q.regs, resetVector, irqVector)
    else if c.halted then q
    else if FetchDone(c, p) then
      if t.taken then Goto(EnterTrap(q, t), NextPc(c, p))
      else if ControlRedirect(c, p) then
        Goto(q.(csrs := if c.id.mret then MretCsrs(c.csrs) else CsrAfter(c.csrs, c.id, c.idA, p.irq)), NextPc(c, p))
      else if DataAccess(c, p) then IssueData(q, c, p)
      else
        IssueFetch(Latch(q.(csrs := if ExecActive(c, p) then CsrAfter(c.csrs, c.id, c.idA, p.irq) else c.csrs,
                            ifPc := c.fetchPc, ifInstr := p.dat),
                         c, p, c.fetchPc, p.dat))
    else if MemDone(c, p) then
      if t.taken then Goto(EnterTrap(q, t), NextPc(c, p))
      else if c.ifValid then IssueFetch(Latch(q, c, p, c.ifPc, c.ifInstr))
      else q.(idValid := false, dataPending := false)
    else if Idle(c, p) then
      var empty := q.(ifValid := false, idValid := false);
      if t.taken then EnterTrap(empty, t).(pc := NextPc(c, p), fetchPc := NextPc(c, p)) else IssueFetch(empty)
    else q
  }

  lemma ReleasedKeeps(c: Core, p: Pins)
    ensures var q := Released(c, p);
      q.halted == c.halted && q.csrs == c.csrs && q.faultPc == c.faultPc && q.faultCause == c.faultCause
      && q.pc == c.pc && q.fetchPc == c.fetchPc && !q.trap && q.regs[0] == 0
      && q.regs == RegWrite(c.regs, RfEnable(c, p), RfAddr(c, p), RfData(c, p))
    ensures p.ack ==> !Released(c, p).cyc
  {
    hide RfEnable, RfAddr, RfData, Index;
    if Done(p) {
    }
  }

  lemma CsrIdle(c: Csrs, d: Control, a: Word, irq: bool)
    requires !d.csr
    ensures CsrAfter(c, d, a, irq) == c
  {
  }

  lemma CsrUnrequested(c: Csrs, d: Control, a: Word, irq: bool)
    requires !(d.csr && CsrWriteRequested(d, a))
    ensures CsrAfter(c, d, a, irq) == c
  {
  }

  // A data access can only be interrupted by its own bus error
  lemma AccessFlush(c: Core, p: Pins)
    requires !FetchDone(c, p) && MemDone(c, p)
    ensures Flush(c, p) <==> TrapWire(c, p).taken
    ensures TrapWire(c, p).taken ==> TrapWire(c, p).cause != MCAUSE_EXT_IRQ
  {
    hide Misaligned, IrqEnabled, JumpWire;
  }
}
