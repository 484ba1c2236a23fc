/** The pipelined core, attached to a memory with arbitrary acknowledge delays, executes exactly
    the instruction sequence of the sequential machine. */
module PipelineProof {
  import opened Rv32
  import opened Machine
  import opened Pipeline

  datatype System = System(core: Core, mem: Memory)

  // One cycle of the environment: does the slave acknowledge, and what is on the data lines when
  // it is not answering a read
  datatype Slave = Slave(ack: bool, junk: Word)

  function PinsOf(s: System, e: Slave): Pins {
    var reading := s.core.cyc && s.core.stb && !s.core.we;
    Pins(false, false, e.ack, false, if reading then ReadWord(s.mem, s.core.adr) else e.junk)
  }

  function Cycle(s: System, e: Slave): System {
    System(Tick(s.core, PinsOf(s, e), 0, 0),
           if s.core.cyc && s.core.stb && s.core.we && e.ack
           then WriteWord(s.mem, s.core.adr, s.core.out, s.core.sel) else s.mem)
  }

  // ----- Invariant -----

  predicate Aligned(pc: Word) {
    pc & 3 == 0
  }

  // No bus cycle, nothing in flight
  predicate IsIdle(c: Core) {
    !c.fetchPending && !c.dataPending && !(c.cyc && c.stb) && !c.idValid
  }

  predicate IsFetching(c: Core) {
    && c.fetchPending && !c.dataPending && !c.busIsData && c.cyc && c.stb && !c.we
    && c.adr == c.fetchPc && c.pc == PcPlus4(c.fetchPc) && Aligned(c.fetchPc)
  }

  // The ID/EX register holds idInstr, decoded, with current operands
  predicate IsDecoded(c: Core) {
    && c.idValid && Aligned(c.idPc) && c.id == Decode(c.idInstr)
    && c.idA == RegRead(c.regs, c.id.rs1) && c.idB == RegRead(c.regs, c.id.rs2)
  }

  predicate IsExecuting(c: Core) {
    IsFetching(c) && IsDecoded(c) && c.fetchPc == PcPlus4(c.idPc)
  }

  predicate IsAccessing(s: System) {
    var c := s.core;
    && c.dataPending && !c.fetchPending && c.busIsData && c.cyc && c.stb && IsDecoded(c)
    && c.ifValid && c.ifPc == PcPlus4(c.idPc) && Aligned(c.ifPc) && c.pc == PcPlus4(c.ifPc)
    && c.ifInstr == ReadWord(s.mem, c.ifPc)
    && !c.id.illegal && !Misaligned(c) && (c.id.memRead || c.id.memWrite)
    && c.adr == AluWire(c) && c.we == c.id.memWrite
    && (c.we ==> c.out == StoreData(c.idB, c.adr & 3, c.id.funct3) && c.sel == StoreSel(c.adr & 3, c.id.funct3))
  }

  predicate Inv(s: System) {
    var c := s.core;
    && !c.halted && c.regs[0] == 0
    && (IsIdle(c) || (IsFetching(c) && !c.idValid) || IsExecuting(c) || IsAccessing(s))
  }

  // The architectural state: the oldest instruction not yet retired, with the word it will execute
  function Abs(s: System): Fetched {
    var c := s.core;
    var pc := if c.idValid then c.idPc else if c.fetchPending then c.fetchPc else c.pc;
    Fetched(Arch(pc, c.regs, c.csrs, s.mem, c.faultPc, c.faultCause),
            if c.idValid then c.idInstr else ReadWord(s.mem, pc))
  }

  // Does the oldest instruction retire in this cycle?
  predicate Retires(s: System, e: Slave) {
    var c := s.core;
    if c.dataPending then e.ack
    else if c.fetchPending then e.ack && c.idValid && !DataAccess(c, PinsOf(s, e))
    else !Aligned(c.pc)
  }

  // Bus acknowledges still needed before the oldest instruction retires
  function Rank(s: System): nat {
    var c := s.core;
    if c.dataPending then 1 else if !c.fetchPending then 4 else if c.idValid then 2 else 3
  }

  // A cycle is useful if the slave answers, or if there was nothing to answer
  predicate Useful(s: System, e: Slave) {
    e.ack || IsIdle(s.core)
  }

  // What one cycle has to show
  predicate Simulates(s: System, e: Slave) {
    && Inv(Cycle(s, e))
    && Abs(Cycle(s, e)) == (if Retires(s, e) then PrefetchStep(Abs(s)) else Abs(s))
    && (Cycle(s, e).core.trap <==> Retires(s, e) && Exception(Abs(s).arch, Abs(s).word) != 0)
    && (!Retires(s, e) ==> Rank(Cycle(s, e)) == Rank(s) - if Useful(s, e) then 1 else 0)
    && (Retires(s, e) ==> Useful(s, e))
  }

  lemma AlignedNext(pc: Word)
    requires Aligned(pc)
    ensures Aligned(PcPlus4(pc))
  {
  }

  lemma RegsKept(x: Regs, r: bv5, v: Word)
    requires x[0] == 0
    ensures RegWrite(x, false, r, v) == x
  {
    assert x[0 := 0] == x;
  }

  // The pins of a cycle without reset, interrupt or bus error
  predicate Quiet(c: Core, p: Pins) {
    !p.rst && !p.irq && !p.err && !c.halted && c.regs[0] == 0
  }

  // A core without an instruction to write back: only the bus is released
  function Plain(c: Core, p: Pins): Core {
    if p.ack then c.(trap := false, cyc := false, stb := false, we := false, fetchPending := false,
      dataPending := false)
    else c.(trap := false)
  }

  lemma ReleasedPlain(c: Core, p: Pins)
    requires Quiet(c, p) && !RfEnable(c, p)
    ensures Released(c, p) == Plain(c, p)
  {
    hide RegWrite, RfEnable, RfAddr, RfData;
    RegsKept(c.regs, RfAddr(c, p), RfData(c, p));
  }

  lemma WaitTick(c: Core, p: Pins)
    requires Quiet(c, p) && !p.ack && (c.fetchPending || c.dataPending)
    ensures Tick(c, p, 0, 0) == c.(trap := false)
  {
    hide RfAddr, RfData, TrapWire, RegWrite, ControlRedirect, DataAccess, ExecActive, Decode;
    ReleasedPlain(c, p);
  }

  lemma IdleWires(c: Core, p: Pins)
    requires Quiet(c, p) && IsIdle(c)
    ensures Idle(c, p) && !FetchDone(c, p) && !MemDone(c, p) && !RfEnable(c, p)
    ensures TrapWire(c, p) == if Aligned(c.pc) then Trap(false, 0, c.pc) else Trap(true, CAUSE_MISALIGNED, c.pc)
    ensures !Aligned(c.pc) ==> NextPc(c, p) == TrapVector(c.csrs)
  {
    hide RfAddr, RfData, TrapVector, Misaligned, BranchTaken, JumpWire, IrqEnabled;
  }

  lemma IdleTick(c: Core, p: Pins)
    requires Quiet(c, p) && IsIdle(c) && Aligned(c.pc)
    ensures Tick(c, p, 0, 0) == IssueFetch(Plain(c, p).(ifValid := false, idValid := false))
  {
    hide IsIdle, Aligned, TrapVector, EnterTrap, Plain, TrapWire, Released, RfEnable, Idle, FetchDone, MemDone,
      NextPc, IssueFetch;
    IdleWires(c, p);
    ReleasedPlain(c, p);
  }

  lemma IdleTrapTick(c: Core, p: Pins)
    requires Quiet(c, p) && IsIdle(c) && !Aligned(c.pc)
    ensures Tick(c, p, 0, 0)
      == EnterTrap(Plain(c, p).(ifValid := false, idValid := false), Trap(true, CAUSE_MISALIGNED, c.pc))
           .(pc := TrapVector(c.csrs), fetchPc := TrapVector(c.csrs))
  {
    hide IsIdle, Aligned, TrapVector, EnterTrap, Plain, TrapWire, Released, RfEnable, Idle, FetchDone, MemDone,
      NextPc;
    IdleWires(c, p);
    ReleasedPlain(c, p);
  }

  // ----- A fetch completes -----

  lemma OperandIsRead(c: Core, p: Pins, r: bv5)
    ensures Operand(c, p, r) == RegRead(RegWrite(c.regs, RfEnable(c, p), RfAddr(c, p), RfData(c, p)), r)
  {
    hide RegRead, RegWrite, RfEnable, RfAddr, RfData;
    RegReadWrite(c.regs, RfEnable(c, p), RfAddr(c, p), RfData(c, p), r);
  }

  lemma FetchedWires(c: Core, p: Pins)
    requires Quiet(c, p) && IsFetching(c) && !c.idValid && p.ack
    ensures FetchDone(c, p) && !RfEnable(c, p) && !TrapWire(c, p).taken && !ControlRedirect(c, p)
    ensures !DataAccess(c, p) && !ExecActive(c, p)
  {
    hide RfAddr, RfData, TrapVector, Misaligned, BranchTaken, JumpWire, IrqEnabled;
  }

  lemma FetchedTick(c: Core, p: Pins)
    requires Quiet(c, p) && IsFetching(c) && !c.idValid && p.ack
    ensures Tick(c, p, 0, 0)
      == IssueFetch(Latch(Plain(c, p).(ifPc := c.fetchPc, ifInstr := p.dat), c, p, c.fetchPc, p.dat))
  {
    hide IsFetching, TrapWire, Released, RfEnable, Idle, FetchDone, MemDone, NextPc, Plain, IssueFetch, Latch,
      ControlRedirect, DataAccess, ExecActive, CsrAfter;
    FetchedWires(c, p);
    ReleasedPlain(c, p);
    var q := Plain(c, p);
    assert q.(csrs := c.csrs, ifPc := c.fetchPc, ifInstr := p.dat) == q.(ifPc := c.fetchPc, ifInstr := p.dat) by {
      PlainCsrs(c, p);
    }
  }

  lemma PlainCsrs(c: Core, p: Pins)
    ensures Plain(c, p).csrs == c.csrs
  {
    if p.ack {
    }
  }

  // ----- The instruction in ID/EX executes -----

  predicate CanExecute(c: Core, p: Pins) {
    Quiet(c, p) && IsFetching(c) && c.idValid && p.ack
  }

  lemma ExecTrapWires(c: Core, p: Pins)
    requires CanExecute(c, p) && (c.id.illegal || Misaligned(c))
    ensures FetchDone(c, p) && !RfEnable(c, p)
    ensures TrapWire(c, p) == Trap(true, if c.id.illegal then CAUSE_ILLEGAL else CAUSE_MISALIGNED, c.idPc)
    ensures NextPc(c, p) == TrapVector(c.csrs)
  {
    hide RfAddr, RfData, TrapVector, Misaligned, BranchTaken, JumpWire, IrqEnabled;
  }

  lemma ExecTrapTick(c: Core, p: Pins)
    requires CanExecute(c, p) && (c.id.illegal || Misaligned(c))
    ensures var cause := if c.id.illegal then CAUSE_ILLEGAL else CAUSE_MISALIGNED;
      Tick(c, p, 0, 0) == Goto(EnterTrap(Plain(c, p), Trap(true, cause, c.idPc)), TrapVector(c.csrs))
  {
    hide IsFetching, TrapWire, Released, RfEnable, Idle, FetchDone, MemDone, NextPc, Plain, IssueFetch, Latch,
      Misaligned, ControlRedirect, DataAccess, ExecActive, CsrAfter, Goto, EnterTrap;
    ExecTrapWires(c, p);
    ReleasedPlain(c, p);
  }

  predicate Sound(c: Core, p: Pins) {
    CanExecute(c, p) && !c.id.illegal && !Misaligned(c)
  }

  predicate WillRedirect(c: Core) {
    c.id.mret || JumpTaken(c.id, c.idA, c.idB)
  }

  lemma ExecRedirects(c: Core, p: Pins)
    requires Sound(c, p)
    ensures FetchDone(c, p) && ExecActive(c, p) && !SyncException(c, p) && !Idle(c, p)
    ensures ControlRedirect(c, p) <==> WillRedirect(c)
    ensures DataAccess(c, p) <==> c.id.memRead || c.id.memWrite
  {
    hide Misaligned, BranchCondition;
  }

  lemma ExecWires(c: Core, p: Pins)
    requires Sound(c, p)
    ensures FetchDone(c, p) && ExecActive(c, p) && !TrapWire(c, p).taken
    ensures ControlRedirect(c, p) <==> WillRedirect(c)
    ensures DataAccess(c, p) <==> c.id.memRead || c.id.memWrite
    ensures WritesResult(c, p) <==> c.id.regWrite && !c.id.memRead && !c.id.memWrite && !c.id.mret
    ensures !WritesLoad(c, p)
  {
    hide Misaligned, IrqEnabled, ControlRedirect, DataAccess, SyncException, Idle, WillRedirect;
    ExecRedirects(c, p);
  }

  lemma ExecTarget(c: Core, p: Pins)
    requires c.idValid && !TrapWire(c, p).taken && WillRedirect(c)
    ensures NextPc(c, p) == if c.id.mret then c.csrs.mepc else JumpTarget(c.id, c.idPc, c.idA)
  {
    hide TrapWire, BranchCondition, JumpTarget;
  }

  lemma ExecRedirectTick(c: Core, p: Pins)
    requires Sound(c, p) && WillRedirect(c)
    ensures var csrs := if c.id.mret then MretCsrs(c.csrs) else CsrAfter(c.csrs, c.id, c.idA, false);
      Tick(c, p, 0, 0) == Goto(Released(c, p).(csrs := csrs),
                               if c.id.mret then c.csrs.mepc else JumpTarget(c.id, c.idPc, c.idA))
  {
    hide IsFetching, TrapWire, Released, RfEnable, Idle, FetchDone, MemDone, NextPc, Plain, IssueFetch, Latch,
      Misaligned, ControlRedirect, DataAccess, ExecActive, CsrAfter, MretCsrs, Goto, EnterTrap, WillRedirect,
      JumpTarget;
    ExecWires(c, p);
    ExecTarget(c, p);
  }

  lemma ExecDataTick(c: Core, p: Pins)
    requires Sound(c, p) && !WillRedirect(c) && (c.id.memRead || c.id.memWrite)
    ensures Tick(c, p, 0, 0) == IssueData(Plain(c, p), c, p)
  {
    hide IsFetching, TrapWire, Released, Idle, FetchDone, MemDone, NextPc, Plain, IssueFetch, Latch, Misaligned,
      ControlRedirect, DataAccess, ExecActive, CsrAfter, MretCsrs, Goto, EnterTrap, WillRedirect, JumpTarget,
      IssueData, WritesResult, WritesLoad;
    ExecWires(c, p);
    ReleasedPlain(c, p);
  }

  lemma ExecPlainTick(c: Core, p: Pins)
    requires Sound(c, p) && !WillRedirect(c) && !c.id.memRead && !c.id.memWrite
    ensures Tick(c, p, 0, 0)
      == IssueFetch(Latch(Released(c, p).(csrs := CsrAfter(c.csrs, c.id, c.idA, false), ifPc := c.fetchPc,
        ifInstr := p.dat),
                          c, p, c.fetchPc, p.dat))
  {
    hide IsFetching, TrapWire, Released, Idle, FetchDone, MemDone, NextPc, Plain, IssueFetch, Latch, Misaligned,
      ControlRedirect, DataAccess, ExecActive, CsrAfter, MretCsrs, Goto, EnterTrap, WillRedirect, JumpTarget,
      IssueData;
    ExecWires(c, p);
  }

  // ----- A data access completes -----

  lemma AccessWires(s: System, p: Pins)
    requires IsAccessing(s) && Quiet(s.core, p) && p.ack
    ensures var c := s.core;
      && !FetchDone(c, p) && MemDone(c, p) && !TrapWire(c, p).taken && !WritesResult(c, p)
      && (WritesLoad(c, p) <==> c.id.memRead)
  {
    hide TrapVector, Misaligned, IrqEnabled, BranchCondition, LoadMisaligned, StoreMisaligned, Alu, AluOut, StoreData,
      StoreSel, ReadWord, RegRead, Decode;
  }

  lemma AccessTick(s: System, p: Pins)
    requires IsAccessing(s) && Quiet(s.core, p) && p.ack
    ensures var c := s.core;
      Tick(c, p, 0, 0) == IssueFetch(Latch(Released(c, p), c, p, c.ifPc, c.ifInstr))
  {
    hide TrapWire, Released, Idle, FetchDone, MemDone, NextPc, Plain, IssueFetch, Latch, Misaligned, AluWire,
      StoreData, StoreSel, ControlRedirect, DataAccess, ExecActive, CsrAfter, MretCsrs, Goto, EnterTrap, WillRedirect,
      JumpTarget, IssueData, ReadWord, RegRead, Decode;
    AccessWires(s, p);
  }

  // ----- Every cycle simulates -----

  lemma IssuedFields(c: Core, p: Pins)
    ensures var t := IssueFetch(Plain(c, p).(ifValid := false, idValid := false));
      && t.halted == c.halted && t.regs == c.regs && t.csrs == c.csrs
      && t.faultPc == c.faultPc && t.faultCause == c.faultCause && !t.trap
      && t.fetchPending && (!c.dataPending ==> !t.dataPending) && !t.busIsData && t.cyc && t.stb && !t.we
      && !t.idValid && t.adr == t.fetchPc == c.pc && t.pc == PcPlus4(c.pc)
  {
    hide PcPlus4;
    if p.ack {
    }
  }

  // An idle core asks for the word at pc
  lemma IdleFields(s: System, e: Slave)
    requires Inv(s) && IsIdle(s.core) && Aligned(s.core.pc)
    ensures var c, t, x := s.core, Cycle(s, e).core, Cycle(s, e).mem;
      && x == s.mem && t.halted == c.halted && t.regs == c.regs && t.csrs == c.csrs
      && t.faultPc == c.faultPc && t.faultCause == c.faultCause && !t.trap
      && t.fetchPending && !t.dataPending && !t.busIsData && t.cyc && t.stb && !t.we && !t.idValid
      && t.adr == t.fetchPc == c.pc && t.pc == PcPlus4(c.pc)
  {
    hide ReadWord, WriteWord, PcPlus4, Aligned, Tick, Plain, IssueFetch, IsFetching, IsExecuting, IsAccessing;
    IdleTick(s.core, PinsOf(s, e));
    IssuedFields(s.core, PinsOf(s, e));
  }

  lemma CycleIdle(s: System, e: Slave)
    requires Inv(s) && IsIdle(s.core) && Aligned(s.core.pc)
    ensures Simulates(s, e)
  {
    hide Decode, ReadWord, PrefetchStep, Exception, PcPlus4, Aligned, Cycle, DataAccess, RegRead, IsExecuting,
      IsAccessing;
    IdleFields(s, e);
  }

  lemma CycleMisaligned(s: System, e: Slave)
    requires Inv(s) && IsIdle(s.core) && !Aligned(s.core.pc)
    ensures Simulates(s, e)
  {
    hide Decode, ReadWord, PcPlus4, Tick, DataAccess, RegRead, AluOf, TrapCsrs, TrapVector, JumpTaken;
    IdleTrapTick(s.core, PinsOf(s, e));
  }

  lemma WiresKept(c: Core, q: Core)
    requires c.id == q.id && c.idPc == q.idPc && c.idA == q.idA && c.idB == q.idB
    ensures Misaligned(q) == Misaligned(c) && AluWire(q) == AluWire(c)
  {
    hide AluOut, LoadMisaligned, StoreMisaligned;
  }

  lemma CycleWaiting(s: System, e: Slave)
    requires Inv(s) && !IsIdle(s.core) && !e.ack
    ensures Simulates(s, e)
  {
    hide Decode, ReadWord, PrefetchStep, Exception, PcPlus4, Aligned, Tick, DataAccess, RegRead, Misaligned, AluWire,
      StoreData, StoreSel;
    WiresKept(s.core, s.core.(trap := false));
    WaitTick(s.core, PinsOf(s, e));
  }

  lemma CycleFetched(s: System, e: Slave)
    requires Inv(s) && IsFetching(s.core) && !s.core.idValid && e.ack
    ensures Simulates(s, e)
  {
    hide Decode, ReadWord, PrefetchStep, Exception, PcPlus4, Aligned, Tick, DataAccess, RegRead, Operand;
    var c, p := s.core, PinsOf(s, e);
    FetchedTick(c, p);
    AlignedNext(c.fetchPc);
    FetchedWires(c, p);
    FetchedOperands(c, p);
  }

  lemma FetchedOperands(c: Core, p: Pins)
    requires Quiet(c, p) && IsFetching(c) && !c.idValid && p.ack
    ensures DecodedWord(c, p) == p.dat
    ensures forall r :: Operand(c, p, r) == RegRead(c.regs, r)
  {
    hide Decode, RegRead, RfData, RfEnable, RfAddr;
    FetchedWires(c, p);
  }

  // The ID/EX register against the machine state it stands for
  lemma DecodedView(s: System)
    requires IsDecoded(s.core)
    ensures var c, f := s.core, Abs(s);
      && Decode(f.word) == c.id && OperandA(f.arch, f.word) == c.idA && OperandB(f.arch, f.word) == c.idB
      && AluOf(f.arch, f.word) == AluWire(c)
      && Exception(f.arch, f.word) == (if c.id.illegal then CAUSE_ILLEGAL
        else if Misaligned(c) then CAUSE_MISALIGNED else 0)
      && (!c.id.illegal && !Misaligned(c) ==> (Redirects(f.arch, f.word) <==> WillRedirect(c)))
  {
    hide Decode, RegRead, AluOut, LoadMisaligned, StoreMisaligned, JumpTaken, ReadWord;
  }

  lemma CycleTraps(s: System, e: Slave)
    requires Inv(s) && IsExecuting(s.core) && e.ack && (s.core.id.illegal || Misaligned(s.core))
    ensures Simulates(s, e)
  {
    hide Decode, ReadWord, PcPlus4, Tick, RegRead, AluOf, TrapCsrs, TrapVector, JumpTaken, OperandA, OperandB,
      Exception, Misaligned, AluWire, IsAccessing;
    var c, p := s.core, PinsOf(s, e);
    DecodedView(s);
    ExecTrapTick(c, p);
  }

  // The register file after the execute cycle
  lemma ExecRegs(s: System, e: Slave)
    requires Inv(s) && IsExecuting(s.core) && Sound(s.core, PinsOf(s, e))
    requires !s.core.id.memRead && !s.core.id.memWrite
    ensures var c, p := s.core, PinsOf(s, e);
      Released(c, p).regs
      == if c.id.mret then c.regs
         else RegWrite(c.regs, c.id.regWrite, c.id.rd, Result(c.id, c.idPc, AluWire(c), c.csrs, false))
  {
    hide Decode, ReadWord, RegRead, TrapCsrs, JumpTaken, Misaligned, AluWire, IsAccessing, WritesResult, WritesLoad,
      Result;
    var c, p := s.core, PinsOf(s, e);
    ExecWires(c, p);
    RegsKept(c.regs, RfAddr(c, p), RfData(c, p));
  }

  lemma CycleRedirects(s: System, e: Slave)
    requires Inv(s) && IsExecuting(s.core) && e.ack && Sound(s.core, PinsOf(s, e)) && WillRedirect(s.core)
    ensures Simulates(s, e)
  {
    hide Decode, ReadWord, PcPlus4, Tick, RegRead, AluOf, MretCsrs, BranchCondition, OperandA, OperandB, Exception,
      Misaligned, AluWire, IsAccessing, Released, DataAccess, RegWrite, Result, CsrAfter, JumpTarget;
    var c, p := s.core, PinsOf(s, e);
    DecodeClasses(c.idInstr);
    DecodedView(s);
    ExecRedirectTick(c, p);
    ExecRegs(s, e);
    ExecWires(c, p);
    ReleasedKeeps(c, p);
    CsrIdle(c.csrs, c.id, c.idA, false);
  }

  lemma CycleAccesses(s: System, e: Slave)
    requires Inv(s) && IsExecuting(s.core) && e.ack && Sound(s.core, PinsOf(s, e)) && !WillRedirect(s.core)
    requires s.core.id.memRead || s.core.id.memWrite
    ensures Simulates(s, e)
  {
    hide Decode, ReadWord, PcPlus4, Aligned, Tick, RegRead, AluOf, JumpTaken, OperandA, OperandB, Exception,
      PrefetchStep, Misaligned, AluWire, Released, DataAccess, WillRedirect, StoreData, StoreSel;
    var c, p := s.core, PinsOf(s, e);
    ExecDataTick(c, p);
    ExecWires(c, p);
    AlignedNext(c.idPc);
    AlignedNext(c.fetchPc);
    WiresKept(c, IssueData(Plain(c, p), c, p));
  }

  // The instruction that enters ID/EX reads registers as the finished instruction leaves them
  lemma LatchedOperands(q: Core, c: Core, p: Pins, pc: Word, instr: Word)
    requires q.regs == RegWrite(c.regs, RfEnable(c, p), RfAddr(c, p), RfData(c, p)) && DecodedWord(c, p) == instr
    ensures var l := Latch(q, c, p, pc, instr);
      && l.idValid && l.idPc == pc && l.idInstr == instr && l.id == Decode(instr)
      && l.idA == RegRead(q.regs, l.id.rs1) && l.idB == RegRead(q.regs, l.id.rs2)
      && l.regs == q.regs && l.csrs == q.csrs && l.faultPc == q.faultPc && l.faultCause == q.faultCause
      && l.pc == q.pc && l.halted == q.halted && l.trap == q.trap
  {
    hide Decode, RegRead, RegWrite, RfEnable, RfAddr, RfData, DecodedWord, Operand;
    OperandIsRead(c, p, Decode(instr).rs1);
    OperandIsRead(c, p, Decode(instr).rs2);
  }

  lemma CycleCompletes(s: System, e: Slave)
    requires Inv(s) && IsExecuting(s.core) && e.ack && Sound(s.core, PinsOf(s, e)) && !WillRedirect(s.core)
    requires !s.core.id.memRead && !s.core.id.memWrite
    ensures Simulates(s, e)
  {
    hide Decode, ReadWord, PcPlus4, Aligned, Tick, RegRead, AluOf, JumpTaken, OperandA, OperandB, Exception, Latch,
      Misaligned, AluWire, Released, DataAccess, WillRedirect, RegWrite, Result, CsrAfter, IsAccessing, RfEnable,
      RfAddr, RfData;
    var c, p := s.core, PinsOf(s, e);
    DecodedView(s);
    ExecPlainTick(c, p);
    ExecRegs(s, e);
    ExecWires(c, p);
    ReleasedKeeps(c, p);
    AlignedNext(c.fetchPc);
    LatchedOperands(Released(c, p).(csrs := CsrAfter(c.csrs, c.id, c.idA, false), ifPc := c.fetchPc, ifInstr := p.dat),
                    c, p, c.fetchPc, p.dat);
  }

  lemma AccessRegs(s: System, e: Slave)
    requires Inv(s) && IsAccessing(s) && e.ack
    ensures var c, p := s.core, PinsOf(s, e);
      Released(c, p).regs
      == if c.id.memRead then RegWrite(c.regs, true, c.id.rd,
        LoadExtend(ReadWord(s.mem, AluWire(c)), AluWire(c) & 3, c.id.funct3))
         else c.regs
  {
    hide Decode, ReadWord, RegRead, TrapCsrs, JumpTaken, Misaligned, AluWire, WritesResult, WritesLoad, Result,
      LoadExtend, StoreData, StoreSel;
    var c, p := s.core, PinsOf(s, e);
    AccessWires(s, p);
    DecodeClasses(c.idInstr);
    RegsKept(c.regs, RfAddr(c, p), RfData(c, p));
  }

  lemma CycleAccessed(s: System, e: Slave)
    requires Inv(s) && IsAccessing(s) && e.ack
    ensures Simulates(s, e)
  {
    hide Decode, ReadWord, WriteWord, PcPlus4, Aligned, Tick, RegRead, AluOf, BranchCondition, OperandA, OperandB,
      Exception, Latch, Misaligned, AluWire, Released, DataAccess, RegWrite, Result, CsrAfter, RfEnable, RfAddr,
      RfData, LoadExtend, StoreData, StoreSel;
    var c, p := s.core, PinsOf(s, e);
    DecodedView(s);
    DecodeClasses(c.idInstr);
    AccessTick(s, p);
    AccessRegs(s, e);
    AccessWires(s, p);
    ReleasedKeeps(c, p);
    AlignedNext(c.ifPc);
    LatchedOperands(Released(c, p), c, p, c.ifPc, c.ifInstr);
  }

  lemma CycleSimulates(s: System, e: Slave)
    requires Inv(s)
    ensures Simulates(s, e)
  {
    hide Decode, Tick, Simulates, Misaligned, WillRedirect, Aligned, IsFetching, AluWire, IsDecoded;
    if IsIdle(s.core) {
      if Aligned(s.core.pc) {
        CycleIdle(s, e);
      } else {
        CycleMisaligned(s, e);
      }
    } else if !e.ack {
      CycleWaiting(s, e);
    } else if IsAccessing(s) {
      CycleAccessed(s, e);
    } else if !s.core.idValid {
      CycleFetched(s, e);
    } else {
      CycleExecutes(s, e);
    }
  }

  lemma CycleExecutes(s: System, e: Slave)
    requires Inv(s) && IsExecuting(s.core) && e.ack
    ensures Simulates(s, e)
  {
    hide Decode, Tick, Simulates, Misaligned, WillRedirect, AluWire, Aligned, IsAccessing;
    if s.core.id.illegal || Misaligned(s.core) {
      CycleTraps(s, e);
    } else if WillRedirect(s.core) {
      CycleRedirects(s, e);
    } else if s.core.id.memRead || s.core.id.memWrite {
      CycleAccesses(s, e);
    } else {
      CycleCompletes(s, e);
    }
  }

  // ----- Whole runs -----

  function Run(s: System, es: seq<Slave>): System {
    if es == [] then s else Cycle(Run(s, es[..|es| - 1]), es[|es| - 1])
  }

  // How many instructions retire during the run
  function Retired(s: System, es: seq<Slave>): nat {
    if es == [] then 0
    else Retired(s, es[..|es| - 1]) + (if Retires(Run(s, es[..|es| - 1]), es[|es| - 1]) then 1 else 0)
  }

  // Every run, under every acknowledge pattern, is a run of the machine with one prefetched word
  lemma {:induction false} RunSimulates(s: System, es: seq<Slave>)
    requires Inv(s)
    ensures Inv(Run(s, es)) && Abs(Run(s, es)) == PrefetchSteps(Abs(s), Retired(s, es))
  {
    hide Inv, Abs, Cycle, Retires, PrefetchStep;
    if es != [] {
      RunSimulates(s, es[..|es| - 1]);
      CycleView(Run(s, es[..|es| - 1]), es[|es| - 1]);
    }
  }

  lemma CycleView(s: System, e: Slave)
    requires Inv(s)
    ensures Inv(Cycle(s, e)) && Abs(Cycle(s, e)) == if Retires(s, e) then PrefetchStep(Abs(s)) else Abs(s)
  {
    hide Inv, Abs, Cycle, Retires, PrefetchStep, Exception;
    CycleSimulates(s, e);
  }

  // From an empty pipeline, and as long as no instruction overwrites the word right after it, the
  // run is a run of the plain one-instruction-at-a-time machine
  lemma {:induction false} RunIsPlain(s: System, es: seq<Slave>)
    requires Inv(s) && !s.core.idValid
    requires forall k :: 0 <= k < Retired(s, es) - 1 ==> NextWordKept(Steps(Abs(s).arch, k))
    ensures Abs(Run(s, es)).arch == Steps(Abs(s).arch, Retired(s, es))
  {
    hide Inv, Run, Retired, PrefetchStep, Step, NextWordKept, ReadWord;
    RunSimulates(s, es);
    if Retired(s, es) > 0 {
      PrefetchIsPlain(Abs(s), Retired(s, es) - 1);
    }
  }

  // When trap_o goes high, exactly the oldest instruction has trapped: no register or memory word
  // changed, and mepc, fault_pc_o and the cause are that instruction's
  lemma {:induction false} TrapIsPrecise(s: System, e: Slave)
    requires Inv(s)
    ensures var a, cause := Abs(s).arch, Exception(Abs(s).arch, Abs(s).word);
      Cycle(s, e).core.trap ==>
        cause != 0 && Abs(Cycle(s, e)).arch
          == a.(pc := TrapVector(a.csrs), csrs := TrapCsrs(a.csrs, cause, a.pc), faultPc := a.pc, faultCause := cause)
  {
    hide Inv, Abs, Cycle, Retires, Exception, TrapCsrs, TrapVector;
    CycleSimulates(s, e);
  }

  // ----- Progress -----

  function UsefulCycles(s: System, es: seq<Slave>): nat {
    if es == [] then 0
    else UsefulCycles(s, es[..|es| - 1]) + (if Useful(Run(s, es[..|es| - 1]), es[|es| - 1]) then 1 else 0)
  }

  lemma RankStep(s: System, e: Slave)
    requires Inv(s)
    ensures Inv(Cycle(s, e)) && (Retires(s, e) ==> Useful(s, e))
    ensures !Retires(s, e) ==> Rank(Cycle(s, e)) == Rank(s) - if Useful(s, e) then 1 else 0
  {
    hide Inv, Abs, Cycle, Retires, PrefetchStep, Exception, Useful, Rank;
    CycleSimulates(s, e);
  }

  // Every four useful cycles retire an instruction, whatever the program does
  lemma {:induction false} RunProgresses(s: System, es: seq<Slave>)
    requires Inv(s) && Rank(s) == 4
    ensures Inv(Run(s, es)) && 1 <= Rank(Run(s, es)) <= 4
    ensures UsefulCycles(s, es) + Rank(Run(s, es)) <= 4 * Retired(s, es) + 4
  {
    hide Inv, Abs, Cycle, Retires, Useful;
    if es != [] {
      RunProgresses(s, es[..|es| - 1]);
      RankStep(Run(s, es[..|es| - 1]), es[|es| - 1]);
    }
  }

  // ----- Reset -----

  // A clock edge with reset high empties the pipeline, and the machine starts at the reset vector
  lemma {:induction false} ResetStarts(c: Core, p: Pins, mem: Memory, resetVector: Word, irqVector: Word)
    requires p.rst
    ensures var s := System(Tick(c, p, resetVector, irqVector), mem);
      && Inv(s) && Rank(s) == 4 && !s.core.idValid && s.core.regs[0] == 0
      && Abs(s).arch == Arch(resetVector, s.core.regs, Csrs(0, 0, irqVector, 0, 0), mem, 0, 0)
  {
    hide RfEnable, RfAddr, RfData, TrapWire, RegWrite, Decode, ReadWord;
    ReleasedKeeps(c, p);
  }

  // ----- Overwriting the prefetched word -----

  // sw x0, 4(x0) at address 0 clears the word after it, an addi
  function SelfModifying(regs: Regs): Arch {
    Arch(0, regs, Csrs(0, 0, 0x100, 0, 0), map[0 := 0x0000_2223, 1 := 0x0010_0093], 0, 0)
  }

  lemma SelfModifyingWords(regs: Regs)
    ensures var s := SelfModifying(regs);
      ReadWord(s.mem, 0) == 0x2223 && ReadWord(s.mem, 4) == 0x0010_0093
      && ReadWord(WriteWord(s.mem, 4, 0, 0xF), 4) == 0
  {
    var m := SelfModifying(regs).mem;
    var a0: Word, a4: Word, sel: bv4 := 0, 4, 0xF;
    assert WordIndex(a0) == 0 && WordIndex(a4) == 1;
    assert m[0] == 0x2223 && m[1] == 0x0010_0093;
    assert LaneMask(sel) == 0xFFFF_FFFF;
    assert MergeLanes(m[1], 0, sel) == 0;
  }

  lemma DecodeStoreZero()
    ensures Decode(0x2223) == Defaults(0x2223).(imm := 4, bImm := true, memWrite := true)
    ensures Defaults(0x2223) == NOP.(rd := 4, funct3 := 2)
  {
    assert (0x2223 as Word) & 0x7F == 0x23;
    assert Bits(0x2223, 7, 0x1F) == 4 && Bits(0x2223, 15, 0x1F) == 0 && Bits(0x2223, 20, 0x1F) == 0;
    assert Bits(0x2223, 12, 7) == 2 && Bits(0x2223, 20, 0xFFF) == 0 && Bits(0x2223, 25, 0x7F) == 0;
    assert ImmS(0x2223) == 4;
  }

  lemma DecodeAddOne()
    ensures Decode(0x0010_0093) == Defaults(0x0010_0093).(imm := 1, bImm := true, regWrite := true)
    ensures Defaults(0x0010_0093) == NOP.(rs2 := 1, rd := 1, csrAddr := 1)
  {
    var w: Word := 0x0010_0093;
    assert w & 0x7F == 0x13;
    assert Bits(w, 7, 0x1F) == 1 && Bits(w, 15, 0x1F) == 0 && Bits(w, 20, 0x1F) == 1;
    assert Bits(w, 12, 7) == 0 && Bits(w, 20, 0xFFF) == 1;
    assert ImmI(w) == 1;
  }

  lemma DecodeZero()
    ensures Decode(0).illegal
  {
    assert (0 as Word) & 0x7F == 0;
  }

  // sw: alu = 0 + 4, aligned, stores zero to the word at 4
  lemma SelfModifyingStore(regs: Regs)
    ensures var s := SelfModifying(regs);
      && Exception(s, 0x2223) == 0 && !Redirects(s, 0x2223)
      && Exec(s, 0x2223) == s.(pc := 4, mem := WriteWord(s.mem, 4, 0, 0xF))
  {
    hide Decode, WriteWord;
    DecodeStoreZero();
    assert (0 as Word) + 4 == 4 && (4 as Word) & 3 == 0 && (0 as Word) & 3 == 0;
  }

  // The plain machine traps on the cleared word, the pipeline still executes the addi
  lemma {:induction false} SelfModifyingDiverges(regs: Regs)
    ensures var s := SelfModifying(regs);
      var f := Fetched(s, ReadWord(s.mem, s.pc));
      !NextWordKept(s) && PrefetchSteps(f, 2).arch.pc == 8 && Steps(s, 2).pc == 0x100
  {
    hide Decode, WriteWord, ReadWord, Exec, Redirects;
    var s := SelfModifying(regs);
    var f := Fetched(s, ReadWord(s.mem, s.pc));
    SelfModifyingWords(regs);
    SelfModifyingStore(regs);
    var t := s.(pc := 4, mem := WriteWord(s.mem, 4, 0, 0xF));
    assert Step(s) == t && PrefetchStep(f) == Fetched(t, 0x0010_0093);
    assert Steps(s, 1) == t && PrefetchSteps(f, 1) == Fetched(t, 0x0010_0093);
    SelfModifyingNext(t);
    assert Steps(s, 2) == Step(t) && PrefetchSteps(f, 2) == PrefetchStep(Fetched(t, 0x0010_0093));
  }

  lemma SelfModifyingNext(t: Arch)
    requires t.pc == 4 && t.csrs.mtvec == 0x100
    ensures Exec(t, 0).pc == 0x100 && Exec(t, 0x0010_0093).pc == 8
  {
    hide Decode;
    DecodeAddOne();
    DecodeZero();
    assert (4 as Word) + 4 == 8 && (4 as Word) & 3 == 0 && (0x100 as Word) & 0xFFFF_FFFC == 0x100;
  }

  // A run passes through every number of retired instructions
  lemma {:induction false} PrefixRetires(s: System, es: seq<Slave>, n: nat) returns (k: nat)
    requires n <= Retired(s, es)
    ensures k <= |es| && Retired(s, es[..k]) == n
    decreases |es|
  {
    hide Retires, Run;
    if Retired(s, es) == n {
      k := |es|;
      assert es[..k] == es;
    } else {
      var front := es[..|es| - 1];
      k := PrefixRetires(s, front, n);
      assert front[..k] == es[..k];
    }
  }

  lemma {:induction false} AllUseful(s: System, es: seq<Slave>)
    requires forall i :: 0 <= i < |es| ==> es[i].ack
    ensures UsefulCycles(s, es) == |es|
  {
    hide Run;
    if es != [] {
      AllUseful(s, es[..|es| - 1]);
    }
  }

  // On the pipeline itself: from reset, with every access acknowledged at once, two instructions
  // retire within eight cycles, and the second is the one the store had cleared
  lemma {:induction false} SelfModifyingRun(c: Core, p: Pins, es: seq<Slave>) returns (k: nat)
    requires p.rst && |es| == 8 && forall i :: 0 <= i < 8 ==> es[i].ack
    ensures var s := System(Tick(c, p, 0, 0x100), SelfModifying(c.regs).mem);
      && k <= 8 && Retired(s, es[..k]) == 2 && Abs(s).arch == SelfModifying(s.core.regs)
      && Abs(Run(s, es[..k])).arch.pc == 8 && Steps(Abs(s).arch, 2).pc == 0x100
      && Abs(Run(s, es[..k])).arch != Steps(Abs(s).arch, 2)
  {
    hide Inv, Tick, Run, Retired, UsefulCycles, PrefetchSteps, Steps, ReadWord;
    var s := System(Tick(c, p, 0, 0x100), SelfModifying(c.regs).mem);
    ResetStarts(c, p, SelfModifying(c.regs).mem, 0, 0x100);
    AllUseful(s, es);
    RunProgresses(s, es);
    k := PrefixRetires(s, es, 2);
    RunSimulates(s, es[..k]);
    SelfModifyingDiverges(s.core.regs);
  }
}
