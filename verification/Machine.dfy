/** A sequential RV32I machine: one instruction per step, no pipeline. PrefetchStep is the same
    machine with a one-word prefetch: the word it executes was read before the previous
    instruction's store took effect. */
module Machine {
  import opened Rv32

  datatype Arch = Arch(pc: Word, regs: Regs, csrs: Csrs, mem: Memory, faultPc: Word, faultCause: Word)

  // The value the writeback multiplexer selects, loads aside
  function Result(d: Control, pc: Word, alu: Word, csrs: Csrs, irq: bool): Word {
    match d.wb
    case WbPc4 => PcPlus4(pc)
    case WbImm => d.imm
    case WbCsr => CsrRead(csrs, d.csrAddr, irq)
    case _ => alu
  }

  function TakeTrap(s: Arch, cause: Word): Arch {
    s.(pc := TrapVector(s.csrs), csrs := TrapCsrs(s.csrs, cause, s.pc), faultPc := s.pc, faultCause := cause)
  }

  function OperandA(s: Arch, w: Word): Word {
    RegRead(s.regs, Decode(w).rs1)
  }

  function OperandB(s: Arch, w: Word): Word {
    RegRead(s.regs, Decode(w).rs2)
  }

  function AluOf(s: Arch, w: Word): Word {
    AluOut(Decode(w), s.pc, OperandA(s, w), OperandB(s, w))
  }

  // The synchronous exception of executing w, 0 if none
  function Exception(s: Arch, w: Word): Word {
    if s.pc & 3 != 0 then CAUSE_MISALIGNED
    else if Decode(w).illegal then CAUSE_ILLEGAL
    else if LoadMisaligned(Decode(w), AluOf(s, w)) || StoreMisaligned(Decode(w), AluOf(s, w)) then CAUSE_MISALIGNED
    else 0
  }

  predicate Redirects(s: Arch, w: Word) {
    Exception(s, w) != 0 || Decode(w).mret || JumpTaken(Decode(w), OperandA(s, w), OperandB(s, w))
  }

  // Executes instruction word w at s.pc
  function Exec(s: Arch, w: Word): Arch {
    var d := Decode(w);
    var a, b, alu := OperandA(s, w), OperandB(s, w), AluOf(s, w);
    if Exception(s, w) != 0 then TakeTrap(s, Exception(s, w))
    else if d.mret then s.(pc := s.csrs.mepc, csrs := MretCsrs(s.csrs))
    else if JumpTaken(d, a, b) then
      s.(pc := JumpTarget(d, s.pc, a), regs := RegWrite(s.regs, d.regWrite, d.rd, Result(d, s.pc, alu, s.csrs, false)))
    else if d.memRead then
      s.(pc := PcPlus4(s.pc),
         regs := RegWrite(s.regs, true, d.rd, LoadExtend(ReadWord(s.mem, alu), alu & 3, d.funct3)))
    else if d.memWrite then
      s.(pc := PcPlus4(s.pc),
         mem := WriteWord(s.mem, alu, StoreData(b, alu & 3, d.funct3), StoreSel(alu & 3, d.funct3)))
    else
      s.(pc := PcPlus4(s.pc), csrs := CsrAfter(s.csrs, d, a, false),
         regs := RegWrite(s.regs, d.regWrite, d.rd, Result(d, s.pc, alu, s.csrs, false)))
  }

  // One instruction of the plain machine
  function Step(s: Arch): Arch {
    Exec(s, ReadWord(s.mem, s.pc))
  }

  function Steps(s: Arch, n: nat): Arch {
    if n == 0 then s else Step(Steps(s, n - 1))
  }

  // ----- The machine with a prefetched word -----

  datatype Fetched = Fetched(arch: Arch, word: Word)

  function PrefetchStep(f: Fetched): Fetched {
    var next := Exec(f.arch, f.word);
    Fetched(next, if Redirects(f.arch, f.word) then ReadWord(next.mem, next.pc)
                  else ReadWord(f.arch.mem, next.pc))
  }

  function PrefetchSteps(f: Fetched, n: nat): Fetched {
    if n == 0 then f else PrefetchStep(PrefetchSteps(f, n - 1))
  }

  predicate Coherent(f: Fetched) {
    f.word == ReadWord(f.arch.mem, f.arch.pc)
  }

  // The instruction at s.pc does not change the word that follows it in program order
  predicate NextWordKept(s: Arch) {
    !Redirects(s, ReadWord(s.mem, s.pc)) ==> ReadWord(Step(s).mem, PcPlus4(s.pc)) == ReadWord(s.mem, PcPlus4(s.pc))
  }

  lemma SequentialPc(s: Arch, w: Word)
    requires !Redirects(s, w)
    ensures Exec(s, w).pc == PcPlus4(s.pc)
  {
    hide Decode, Alu;
  }

  // The prefetched word is the one in memory after a step exactly when the instruction did not
  // overwrite it
  lemma {:induction false} StepCoherentIff(f: Fetched)
    requires Coherent(f)
    ensures PrefetchStep(f).arch == Step(f.arch)
    ensures Coherent(PrefetchStep(f)) <==> NextWordKept(f.arch)
  {
    hide Exec, Redirects, ReadWord;
    if !Redirects(f.arch, f.word) {
      SequentialPc(f.arch, f.word);
    }
  }

  // The two machines agree up to and including the instruction after the first that overwrites
  // its successor's word
  lemma {:induction false} PrefetchIsPlain(f: Fetched, n: nat)
    requires Coherent(f) && forall k :: 0 <= k < n ==> NextWordKept(Steps(f.arch, k))
    ensures PrefetchSteps(f, n).arch == Steps(f.arch, n) && Coherent(PrefetchSteps(f, n))
    ensures PrefetchSteps(f, n + 1).arch == Steps(f.arch, n + 1)
  {
    hide PrefetchStep, Step, NextWordKept, Coherent;
    if n > 0 {
      PrefetchIsPlain(f, n - 1);
      StepCoherentIff(PrefetchSteps(f, n - 1));
    }
    StepCoherentIff(PrefetchSteps(f, n));
  }
}
