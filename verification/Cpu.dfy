/** The clocked block of rv32i_2stage_wb as it is written: at each clock edge the non-blocking
    assignments are scheduled one after the other in n, a later one overriding an earlier one and
    every right-hand side reading the registers c from before the edge, and then committed to the
    registers together. Clock is proved to compute Tick. */
module Cpu {
  import opened Rv32
  import opened Pipeline

  datatype Pending = Pending(fetch: bool, data: bool)
  datatype IfId = IfId(valid: bool, pc: Word, instr: Word)
  datatype IdEx = IdEx(valid: bool, pc: Word, instr: Word, a: Word, b: Word, control: Control)
  datatype Bus = Bus(adr: Word, out: Word, sel: bv4, we: bool, cyc: bool, stb: bool, isData: bool)
  datatype Status = Status(trap: bool, halted: bool, faultPc: Word, faultCause: Word)

  class Processor {
    const resetVector: Word
    const irqVector: Word
    const xreg: array<Word>

    var pc: Word
    var fetchPc: Word
    var pending: Pending
    var ifId: IfId
    var idEx: IdEx
    var csrs: Csrs
    var bus: Bus
    var status: Status

    predicate Valid()
      reads this
    {
      xreg.Length == 32
    }

    function State(): Core
      requires Valid()
      reads this, xreg
    {
      Core(pc, fetchPc, pending.fetch, pending.data, ifId.valid, ifId.pc, ifId.instr,
           idEx.valid, idEx.pc, idEx.instr, idEx.a, idEx.b, idEx.control, csrs,
           bus.adr, bus.out, bus.sel, bus.we, bus.cyc, bus.stb, bus.isData,
           status.trap, status.halted, status.faultPc, status.faultCause, xreg[..])
    }

    constructor (resetVector: Word, irqVector: Word)
      ensures Valid() && fresh(xreg) && this.resetVector == resetVector && this.irqVector == irqVector
      ensures State() == ResetState(seq(32, i => 0), resetVector, irqVector)
    {
      this.resetVector, this.irqVector := resetVector, irqVector;
      xreg := new Word[32](i => 0);
      pc, fetchPc, pending := resetVector, resetVector, Pending(false, false);
      ifId, idEx := IfId(false, 0, 0), IdEx(false, 0, 0, 0, 0, NOP);
      csrs := Csrs(0, 0, irqVector, 0, 0);
      bus, status := Bus(0, 0, 0, false, false, false, false), Status(false, false, 0, 0);
      new;
      assert xreg[..] == seq(32, i => 0);
    }

    method WriteRegister(enable: bool, addr: bv5, data: Word)
      requires Valid()
      modifies xreg
      ensures xreg[..] == RegWrite(old(xreg[..]), enable, addr, data)
    {
      if enable && addr != 0 {
        xreg[Index(addr)] := data;
      }
      xreg[0] := 0;
    }

    // The scheduled values reach the registers; xreg is written by its own clocked block
    method Commit(n: Core)
      requires Valid() && xreg[..] == n.regs
      modifies this
      ensures Valid() && State() == n
    {
      pc, fetchPc, csrs := n.pc, n.fetchPc, n.csrs;
      pending, ifId := Pending(n.fetchPending, n.dataPending), IfId(n.ifValid, n.ifPc, n.ifInstr);
      idEx := IdEx(n.idValid, n.idPc, n.idInstr, n.idA, n.idB, n.id);
      bus := Bus(n.adr, n.out, n.sel, n.we, n.cyc, n.stb, n.busIsData);
      status := Status(n.trap, n.halted, n.faultPc, n.faultCause);
    }

    method Clock(p: Pins)
      requires Valid()
      modifies this, xreg
      ensures Valid() && State() == Tick(old(State()), p, resetVector, irqVector)
    {
      hide RfEnable, RfAddr, RfData, RegWrite, Tick;
      var c := State();
      var n := Schedule(c, p, resetVector, irqVector);
      WriteRegister(RfEnable(c, p), RfAddr(c, p), RfData(c, p));
      Commit(n);
    }
  }

  method Schedule(c: Core, p: Pins, resetVector: Word, irqVector: Word) returns (n: Core)
    ensures n == Tick(c, p, resetVector, irqVector)
    ensures n.regs == RegWrite(c.regs, RfEnable(c, p), RfAddr(c, p), RfData(c, p))
  {
    hide TrapWire, FetchDone, MemDone, Idle, RfEnable, RfAddr, RfData, RegWrite, Released, Tick, ResetState;
    n := Release(c, p);
    ReleasedKeeps(c, p);
    if p.rst {
      n := Reset(n.regs, resetVector, irqVector);
      TickOther(c, p, resetVector, irqVector);
    } else if c.halted {
      TickOther(c, p, resetVector, irqVector);
    } else if FetchDone(c, p) {
      n := FinishFetch(n, c, p, resetVector, irqVector);
    } else if MemDone(c, p) {
      n := FinishAccess(n, c, p, resetVector, irqVector);
    } else if Idle(c, p) {
      n := StartUp(n, c, p, resetVector, irqVector);
    } else {
      TickOther(c, p, resetVector, irqVector);
    }
  }

  lemma TickOther(c: Core, p: Pins, r: Word, i: Word)
    ensures p.rst ==> Tick(c, p, r, i) == ResetState(Released(c, p).regs, r, i)
    ensures !p.rst && c.halted ==> Tick(c, p, r, i) == Released(c, p)
    ensures !p.rst && !FetchDone(c, p) && !MemDone(c, p) && !Idle(c, p) ==> Tick(c, p, r, i) == Released(c, p)
  {
    hide TrapWire, FetchDone, MemDone, Idle, Released, ResetState, Goto, EnterTrap, IssueFetch, IssueData, Latch,
      NextPc, ControlRedirect, DataAccess;
  }

  lemma TickStart(c: Core, p: Pins, r: Word, i: Word)
    requires !p.rst && !c.halted && !FetchDone(c, p) && !MemDone(c, p) && Idle(c, p)
    ensures var t, next, empty := TrapWire(c, p), NextPc(c, p), Released(c, p).(ifValid := false, idValid := false);
      && (t.taken ==> Tick(c, p, r, i) == EnterTrap(empty, t).(pc := next, fetchPc := next))
      && (!t.taken ==> Tick(c, p, r, i) == IssueFetch(empty))
  {
    hide TrapWire, FetchDone, MemDone, Idle, Released, ResetState, EnterTrap, IssueFetch, NextPc;
  }

  lemma TickAccess(c: Core, p: Pins, r: Word, i: Word)
    requires !p.rst && !c.halted && !FetchDone(c, p) && MemDone(c, p)
    ensures var q, t := Released(c, p), TrapWire(c, p);
      && (t.taken ==> Tick(c, p, r, i) == Goto(EnterTrap(q, t), NextPc(c, p)))
      && (!t.taken && c.ifValid ==> Tick(c, p, r, i) == IssueFetch(Latch(q, c, p, c.ifPc, c.ifInstr)))
      && (!t.taken && !c.ifValid ==> Tick(c, p, r, i) == q.(idValid := false, dataPending := false))
  {
    hide TrapWire, FetchDone, MemDone, Idle, Released, ResetState, Goto, EnterTrap, IssueFetch, IssueData, Latch,
      NextPc, ControlRedirect, DataAccess;
  }

  lemma TickTrap(c: Core, p: Pins, r: Word, i: Word)
    requires !p.rst && !c.halted && FetchDone(c, p) && TrapWire(c, p).taken
    ensures Tick(c, p, r, i) == Goto(EnterTrap(Released(c, p), TrapWire(c, p)), NextPc(c, p))
  {
    hide TrapWire, FetchDone, MemDone, Idle, Released, ResetState, Goto, EnterTrap, IssueFetch, IssueData, Latch,
      NextPc, ControlRedirect, DataAccess, ExecActive, CsrAfter, MretCsrs;
  }

  lemma TickMret(c: Core, p: Pins, r: Word, i: Word)
    requires !p.rst && !c.halted && FetchDone(c, p) && !TrapWire(c, p).taken && ControlRedirect(c, p) && c.id.mret
    ensures Tick(c, p, r, i) == Goto(Released(c, p).(csrs := MretCsrs(c.csrs)), NextPc(c, p))
  {
    hide TrapWire, FetchDone, MemDone, Idle, Released, ResetState, Goto, EnterTrap, IssueFetch, IssueData, Latch,
      NextPc, ControlRedirect, DataAccess, ExecActive, CsrAfter, MretCsrs;
  }

  lemma TickJump(c: Core, p: Pins, r: Word, i: Word)
    requires !p.rst && !c.halted && FetchDone(c, p) && !TrapWire(c, p).taken && ControlRedirect(c, p) && !c.id.mret
    ensures Tick(c, p, r, i) == Goto(Released(c, p).(csrs := CsrAfter(c.csrs, c.id, c.idA, p.irq)), NextPc(c, p))
  {
    hide TrapWire, FetchDone, MemDone, Idle, Released, ResetState, Goto, EnterTrap, IssueFetch, IssueData, Latch,
      NextPc, ControlRedirect, DataAccess, ExecActive, CsrAfter, MretCsrs;
  }

  lemma TickData(c: Core, p: Pins, r: Word, i: Word)
    requires !p.rst && !c.halted && FetchDone(c, p)
    requires !TrapWire(c, p).taken && !ControlRedirect(c, p) && DataAccess(c, p)
    ensures Tick(c, p, r, i) == IssueData(Released(c, p), c, p)
  {
    hide TrapWire, FetchDone, MemDone, Idle, Released, ResetState, Goto, EnterTrap, IssueFetch, IssueData, Latch,
      NextPc, ControlRedirect, DataAccess, ExecActive, CsrAfter, MretCsrs;
  }

  lemma TickIssue(c: Core, p: Pins, r: Word, i: Word)
    requires !p.rst && !c.halted && FetchDone(c, p)
    requires !TrapWire(c, p).taken && !ControlRedirect(c, p) && !DataAccess(c, p)
    ensures var csrs := if ExecActive(c, p) then CsrAfter(c.csrs, c.id, c.idA, p.irq) else c.csrs;
      Tick(c, p, r, i)
      == IssueFetch(Latch(Released(c, p).(csrs := csrs, ifPc := c.fetchPc, ifInstr := p.dat), c, p, c.fetchPc, p.dat))
  {
    hide TrapWire, FetchDone, MemDone, Idle, Released, ResetState, Goto, EnterTrap, IssueFetch, IssueData, Latch,
      NextPc, ControlRedirect, DataAccess, ExecActive, CsrAfter, MretCsrs;
  }

  method Reset(regs: Regs, resetVector: Word, irqVector: Word) returns (n: Core)
    ensures n == ResetState(regs, resetVector, irqVector) && n.regs == regs
  {
    n := ResetState(regs, resetVector, irqVector);
  }

  method Release(c: Core, p: Pins) returns (n: Core)
    ensures n == Released(c, p)
  {
    hide RfEnable, RfAddr, RfData, RegWrite;
    n := c.(trap := false, regs := RegWrite(c.regs, RfEnable(c, p), RfAddr(c, p), RfData(c, p)));
    if Done(p) {
      n := n.(cyc := false, stb := false, we := false, fetchPending := false, dataPending := false);
    }
  }

  // fetch_pc <= pc, bus read request at pc, pc <= pc + 4
  method RequestFetch(q: Core, c: Core) returns (n: Core)
    requires q.pc == c.pc
    ensures n == IssueFetch(q) && n.regs == q.regs
  {
    n := q.(fetchPc := c.pc, adr := c.pc, out := 0, sel := 0xF, we := false, cyc := true, stb := true,
      busIsData := false,
            pc := PcPlus4(c.pc), fetchPending := true, dataPending := false);
  }

  method RequestData(q: Core, c: Core, p: Pins) returns (n: Core)
    ensures n == IssueData(q, c, p) && n.regs == q.regs
  {
    hide AluWire, StoreData, SelWire;
    n := q.(ifValid := !p.err, ifPc := c.fetchPc, ifInstr := p.dat,
            adr := AluWire(c), out := StoreData(c.idB, AluWire(c) & 3, c.id.funct3), sel := SelWire(c),
              we := c.id.memWrite,
            cyc := true, stb := true, busIsData := true, fetchPending := false, dataPending := true);
  }

  method TakeTrap(q: Core, c: Core, p: Pins) returns (n: Core)
    requires q.csrs == c.csrs
    ensures n == EnterTrap(q, TrapWire(c, p)) && n.pc == q.pc && n.regs == q.regs
    ensures n.trap == (TrapWire(c, p).cause != MCAUSE_EXT_IRQ)
  {
    hide TrapWire, TrapCsrs;
    var t := TrapWire(c, p);
    n := q.(csrs := TrapCsrs(c.csrs, t.cause, t.pc), faultPc := t.pc, faultCause := t.cause,
      trap := t.cause != MCAUSE_EXT_IRQ);
  }

  method LatchDecoded(q: Core, c: Core, p: Pins, at: Word, instr: Word) returns (n: Core)
    ensures n == Latch(q, c, p, at, instr) && n.pc == q.pc && n.regs == q.regs
  {
    hide Decode, DecodedWord, Operand;
    var d := Decode(DecodedWord(c, p));
    n := q.(idValid := true, idPc := at, idInstr := instr, id := d,
            idA := Operand(c, p, d.rs1), idB := Operand(c, p, d.rs2), ifValid := false);
  }

  method GoTo(q: Core, target: Word) returns (n: Core)
    ensures n == Goto(q, target) && n.regs == q.regs
  {
    n := q.(pc := target, fetchPc := target, ifValid := false, idValid := false, fetchPending := false,
      dataPending := false);
  }

  lemma TrapAgain(n: Core)
    requires n.trap
    ensures n.(trap := true) == n
  {
  }

  method StartUp(q: Core, c: Core, p: Pins, resetVector: Word, irqVector: Word) returns (n: Core)
    requires !FetchDone(c, p) && !MemDone(c, p) && Idle(c, p) && !p.rst && !c.halted && q == Released(c, p)
    ensures n == Tick(c, p, resetVector, irqVector) && n.regs == q.regs
  {
    hide Tick, RegWrite, RfEnable, RfAddr, RfData, TrapWire, FetchDone, MemDone, Idle, Released, IssueFetch, NextPc,
      TrapCsrs, EnterTrap;
    ReleasedKeeps(c, p);
    TickStart(c, p, resetVector, irqVector);
    n := q.(idValid := false, ifValid := false);
    if TrapWire(c, p).taken {
      n := TakeTrap(n, c, p);
      n := n.(pc := NextPc(c, p), fetchPc := NextPc(c, p));
    } else {
      n := RequestFetch(n, c);
    }
  }

  method FinishAccess(q: Core, c: Core, p: Pins, resetVector: Word, irqVector: Word) returns (n: Core)
    requires !FetchDone(c, p) && MemDone(c, p) && !p.rst && !c.halted && q == Released(c, p)
    ensures n == Tick(c, p, resetVector, irqVector) && n.regs == q.regs
  {
    hide Tick, RegWrite, RfEnable, RfAddr, RfData, TrapWire, FetchDone, MemDone, Idle, Released, IssueFetch, NextPc,
      Latch, TrapCsrs, EnterTrap, Flush, Goto, ControlRedirect;
    ReleasedKeeps(c, p);
    AccessFlush(c, p);
    TickAccess(c, p, resetVector, irqVector);
    if Flush(c, p) {
      n := TakeTrap(q, c, p);
      TrapAgain(n);
      n := n.(trap := true);
      n := GoTo(n, NextPc(c, p));
    } else if c.ifValid {
      n := LatchDecoded(q, c, p, c.ifPc, c.ifInstr);
      n := RequestFetch(n, c);
    } else {
      n := q.(idValid := false, dataPending := false);
    }
  }

  // The CSR write of the instruction leaving ID/EX, if it asks for one
  method WriteCsr(c: Core, p: Pins) returns (v: Csrs)
    ensures v == CsrAfter(c.csrs, c.id, c.idA, p.irq)
  {
    hide CsrAfter, CsrWriteRequested;
    if c.id.csr && CsrWriteRequested(c.id, c.idA) {
      v := CsrAfter(c.csrs, c.id, c.idA, p.irq);
    } else {
      CsrUnrequested(c.csrs, c.id, c.idA, p.irq);
      v := c.csrs;
    }
  }

  method FlushForTrap(q: Core, c: Core, p: Pins, resetVector: Word, irqVector: Word) returns (n: Core)
    requires FetchDone(c, p) && !p.rst && !c.halted && q == Released(c, p) && TrapWire(c, p).taken
    ensures n == Tick(c, p, resetVector, irqVector) && n.regs == q.regs
  {
    hide *;
    ReleasedKeeps(c, p);
    TickTrap(c, p, resetVector, irqVector);
    n := TakeTrap(q, c, p);
    n := GoTo(n, NextPc(c, p));
  }

  method FlushForMret(q: Core, c: Core, p: Pins, resetVector: Word, irqVector: Word) returns (n: Core)
    requires FetchDone(c, p) && !p.rst && !c.halted && q == Released(c, p)
    requires !TrapWire(c, p).taken && ControlRedirect(c, p) && c.id.mret
    ensures n == Tick(c, p, resetVector, irqVector) && n.regs == q.regs
  {
    hide *;
    TickMret(c, p, resetVector, irqVector);
    n := GoTo(q.(csrs := MretCsrs(c.csrs)), NextPc(c, p));
  }

  method FlushForJump(q: Core, c: Core, p: Pins, resetVector: Word, irqVector: Word) returns (n: Core)
    requires FetchDone(c, p) && !p.rst && !c.halted && q == Released(c, p)
    requires !TrapWire(c, p).taken && ControlRedirect(c, p) && !c.id.mret
    ensures n == Tick(c, p, resetVector, irqVector) && n.regs == q.regs
  {
    hide *;
    TickJump(c, p, resetVector, irqVector);
    var v := WriteCsr(c, p);
    n := GoTo(q.(csrs := v), NextPc(c, p));
  }

  method StartNext(q: Core, c: Core, p: Pins, resetVector: Word, irqVector: Word) returns (n: Core)
    requires FetchDone(c, p) && !p.rst && !c.halted && q == Released(c, p)
    requires !TrapWire(c, p).taken && !ControlRedirect(c, p) && !DataAccess(c, p)
    ensures n == Tick(c, p, resetVector, irqVector) && n.regs == q.regs
  {
    hide *;
    ReleasedKeeps(c, p);
    TickIssue(c, p, resetVector, irqVector);
    var v := c.csrs;
    if ExecActive(c, p) {
      v := WriteCsr(c, p);
    }
    n := q.(csrs := v, ifPc := c.fetchPc, ifInstr := p.dat);
    n := LatchDecoded(n, c, p, c.fetchPc, p.dat);
    n := RequestFetch(n, c);
  }

  method FinishFetch(q: Core, c: Core, p: Pins, resetVector: Word, irqVector: Word) returns (n: Core)
    requires FetchDone(c, p) && !p.rst && !c.halted && q == Released(c, p)
    ensures n == Tick(c, p, resetVector, irqVector) && n.regs == q.regs
  {
    hide *;
    if TrapWire(c, p).taken {
      n := FlushForTrap(q, c, p, resetVector, irqVector);
    } else if ControlRedirect(c, p) {
      if c.id.mret {
        n := FlushForMret(q, c, p, resetVector, irqVector);
      } else {
        n := FlushForJump(q, c, p, resetVector, irqVector);
      }
    } else if DataAccess(c, p) {
      TickData(c, p, resetVector, irqVector);
      n := RequestData(q, c, p);
    } else {
      n := StartNext(q, c, p, resetVector, irqVector);
    }
  }
}
