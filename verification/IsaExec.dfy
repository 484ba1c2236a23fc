/** The core's decoder and execute stage do what the manual's instruction set says: for every instruction and
    state, and every word that encodes none is an illegal instruction. */
module IsaExec {
  import opened Words
  import opened Machine
  import opened Isa
  import opened IsaFormats
  import opened IsaMemory
  import Rv32

  // ----- State updates -----

  predicate ZeroKept(s: Arch) {
    s.regs[0] == 0
  }

  lemma RegIs(s: Arch, r: bv5)
    requires ZeroKept(s)
    ensures Rv32.RegRead(s.regs, r) == Reg(s, r)
  {
    if r == 0 {
      assert Rv32.Index(0) == 0;
    }
  }

  lemma SetRegIs(s: Arch, r: bv5, v: Word)
    requires ZeroKept(s)
    ensures s.(regs := Rv32.RegWrite(s.regs, true, r, v)) == SetReg(s, r, v)
    ensures ZeroKept(SetReg(s, r, v))
  {
    if r == 0 {
      assert s.regs[0 := 0] == s.regs;
    } else {
      if Rv32.Index(r) == 0 {
        Rv32.IndexZero(r);
      }
      assert s.regs[Rv32.Index(r) := v][0 := 0] == s.regs[Rv32.Index(r) := v];
    }
  }

  lemma PcPlus4Is(pc: Word)
    ensures Rv32.PcPlus4(pc) == OfInt(U(pc) + 4)
  {
    hide U, OfInt, Plus;
    FourU();
    PlusU(pc, 4);
    OfIntIs(U(pc) + 4, Plus(pc, 4));
    PcPlus4Form(pc);
  }

  lemma FourU()
    ensures U(4) == 4
  {
    SmallNumbers();
    UnfoldU(4);
  }

  lemma PcPlus4Form(pc: Word)
    ensures Rv32.PcPlus4(pc) == Plus(pc, 4)
  {
  }

  lemma Aligned4(x: Word)
    ensures x & 3 == 0 <==> U(x) % 4 == 0
  {
    hide U;
    OffsetU(x);
    ZeroU();
    LessIff(x & 3, 0);
  }

  lemma Clear2Is(x: Word)
    ensures Rv32.Clear2(x) == OfInt(RoundDown(U(x), 4))
  {
    hide U, OfInt, And, Minus, Rv32.Clear2;
    Masks();
    Powers();
    MaskU(x, 3, 2);
    RangeU(x);
    MinusU(x, And(x, 3));
    OfIntIs(RoundDown(U(x), 4), Minus(x, And(x, 3)));
    Clear2Form(x);
  }

  lemma Clear1Is(x: Word)
    ensures Rv32.Clear1(x) == OfInt(RoundDown(U(x), 2))
  {
    hide U, OfInt, And, Minus, Rv32.Clear1;
    Masks();
    Powers();
    MaskU(x, 1, 1);
    RangeU(x);
    MinusU(x, And(x, 1));
    OfIntIs(RoundDown(U(x), 2), Minus(x, And(x, 1)));
    Clear1Form(x);
  }

  lemma Clear2Form(x: Word)
    ensures Rv32.Clear2(x) == Minus(x, And(x, 3))
  {
    calc {
      Rv32.Clear2(x);
      x & 0xFFFF_FFFC;
      { Cleared2(x); }
      x - (x & 3);
      Minus(x, And(x, 3));
    }
  }

  lemma Clear1Form(x: Word)
    ensures Rv32.Clear1(x) == Minus(x, And(x, 1))
  {
    calc {
      Rv32.Clear1(x);
      x & 0xFFFF_FFFE;
      { Cleared1(x); }
      x - (x & 1);
      Minus(x, And(x, 1));
    }
  }

  lemma Cleared2(x: Word)
    ensures x & 0xFFFF_FFFC == x - (x & 3)
  {
  }

  lemma Cleared1(x: Word)
    ensures x & 0xFFFF_FFFE == x - (x & 1)
  {
  }

  lemma StatusTrap(m: Word)
    ensures (m & 0xFFFF_FF77) | (if m & 8 != 0 then 0x80 else 0) == Disabled(m)
  {
  }

  lemma StatusReturn(m: Word)
    ensures (m & 0xFFFF_FF77) | 0x80 | (if m & 0x80 != 0 then 8 else 0) == Restored(m)
  {
  }

  lemma TrapVectorIs(c: Rv32.Csrs)
    ensures Rv32.TrapVector(c) == OfInt(RoundDown(U(c.mtvec), 4))
  {
    hide U, OfInt, RoundDown, Rv32.Clear2;
    Clear2Is(c.mtvec);
  }

  lemma TrapCsrsForm(c: Rv32.Csrs, cause: Word, pc: Word)
    ensures Rv32.TrapCsrs(c, cause, pc) == c.(mepc := Rv32.Clear1(pc), mcause := cause, mstatus := Disabled(c.mstatus))
  {
    hide Disabled, Rv32.Clear1;
    StatusTrap(c.mstatus);
  }

  lemma TrapCsrsIs(c: Rv32.Csrs, cause: Word, pc: Word)
    ensures Rv32.TrapCsrs(c, cause, pc) == TrapCsrs(c, cause, pc)
  {
    hide U, OfInt, Disabled, Rv32.Clear1, RoundDown, Rv32.TrapCsrs;
    TrapCsrsForm(c, cause, pc);
    Clear1Is(pc);
  }

  lemma MretCsrsIs(c: Rv32.Csrs)
    ensures Rv32.MretCsrs(c) == c.(mstatus := Restored(c.mstatus))
  {
    hide Restored;
    StatusReturn(c.mstatus);
  }

  lemma TrapIs(s: Arch, cause: Word)
    ensures TakeTrap(s, cause) == Trap(s, cause)
  {
    hide U, OfInt, RoundDown, Rv32.TrapVector, Rv32.TrapCsrs, TrapCsrs;
    TrapVectorIs(s.csrs);
    TrapCsrsIs(s.csrs, cause, s.pc);
  }

  // ----- CSR accesses -----

  function RvKind(k: CsrKind): Rv32.CsrOp {
    match k
    case RW => Rv32.CsrWrite
    case RS => Rv32.CsrSet
    case RC => Rv32.CsrClear
  }

  function Number(c: CsrName): bv12 {
    CsrNumber(c) as bv12
  }

  lemma CsrReadIs(c: Rv32.Csrs, n: CsrName)
    ensures Rv32.CsrRead(c, Number(n), false) == CsrValue(c, n)
  {
  }

  // The CSR fields of a decoded CSR instruction
  predicate CsrInsn(d: Rv32.Control, k: CsrKind, n: CsrName) {
    d.csr && d.csrOp == RvKind(k) && d.csrAddr == Number(n)
  }

  function SetMasked(c: Rv32.Csrs, n: CsrName, v: Word): Rv32.Csrs {
    match n
    case Mstatus => c.(mstatus := v)
    case Mie => c.(mie := v)
    case Mtvec => c.(mtvec := Rv32.Clear2(v))
    case Mepc => c.(mepc := Rv32.Clear1(v))
    case Mcause => c.(mcause := v)
    case Mip => c
  }

  lemma SetCsrForm(c: Rv32.Csrs, n: CsrName, v: Word, d: Rv32.Control, a: Word)
    requires d.csrAddr == Number(n) && Rv32.CsrWriteRequested(d, a)
    requires v == Rv32.CsrApply(d.csrOp, Rv32.CsrRead(c, d.csrAddr, false), Rv32.CsrSource(d, a))
    ensures Rv32.CsrAfter(c, d, a, false) == SetMasked(c, n, v)
  {
    hide Rv32.CsrApply, Rv32.CsrSource, Rv32.CsrRead, Rv32.CsrWriteRequested, Rv32.Clear1, Rv32.Clear2;
  }

  lemma SetMaskedIs(c: Rv32.Csrs, n: CsrName, v: Word)
    ensures SetMasked(c, n, v) == SetCsr(c, n, v)
  {
    hide U, OfInt, RoundDown, Rv32.Clear1, Rv32.Clear2;
    Clear1Is(v);
    Clear2Is(v);
  }

  lemma CsrAfterIs(c: Rv32.Csrs, d: Rv32.Control, k: CsrKind, n: CsrName, a: Word)
    requires CsrInsn(d, k, n)
    ensures var source := Rv32.CsrSource(d, a);
      Rv32.CsrAfter(c, d, a, false)
      == if k != RW && source == 0 then c else SetCsr(c, n, Updated(k, CsrValue(c, n), source))
  {
    hide Rv32.CsrSource, Rv32.CsrRead, CsrValue, SetCsr, SetMasked, Number;
    CsrReadIs(c, n);
    var source := Rv32.CsrSource(d, a);
    if k != RW && source == 0 {
    } else {
      SetCsrForm(c, n, Updated(k, CsrValue(c, n), source), d, a);
      SetMaskedIs(c, n, Updated(k, CsrValue(c, n), source));
    }
  }

  // ----- Decoded instructions -----

  // Nothing but a register result
  predicate Simple(d: Rv32.Control) {
    && !d.memRead && !d.memWrite && !d.branch && !d.jal && !d.jalr && !d.mret && !d.csr && !d.illegal
  }

  predicate Computes(d: Rv32.Control, op: Rv32.AluOp, aPc: bool, bImm: bool, wb: Rv32.WbSel, rd: bv5) {
    Simple(d) && d.regWrite && d.alu == op && d.aPc == aPc && d.bImm == bImm && d.wb == wb && d.rd == rd
  }

  lemma DecodeUpper(w: Word, imm: Word, rd: bv5)
    requires Rv32.Field5(w, 7) == rd && Rv32.ImmU(w) == imm
    ensures w & 0x7F == 0x37 ==> Computes(Rv32.Decode(w), Rv32.Pass, false, true, Rv32.WbImm, rd)
    ensures w & 0x7F == 0x17 ==> Computes(Rv32.Decode(w), Rv32.Add, true, true, Rv32.WbAlu, rd)
    ensures w & 0x7F == 0x37 || w & 0x7F == 0x17 ==> Rv32.Decode(w).imm == imm
  {
    hide Rv32.Field5, Rv32.ImmU, Rv32.Bits;
  }

  lemma DecodeClassOp(w: Word)
    ensures w & 0x7F == 0x33 ==> Rv32.Decode(w) == Rv32.DecodeOp(w)
    ensures w & 0x7F == 0x13 ==> Rv32.Decode(w) == Rv32.DecodeOpImm(w)
    ensures w & 0x7F == 0x73 ==> Rv32.Decode(w) == Rv32.DecodeSystem(w)
  {
    hide Rv32.DecodeOp, Rv32.DecodeOpImm, Rv32.DecodeSystem, Rv32.Defaults;
  }

  function Code3(op: IntOp): bv3 {
    Funct3Of(op) as bv3
  }

  function Code7(op: IntOp): bv7 {
    Funct7Of(op) as bv7
  }

  lemma OpTable(w: Word, op: IntOp)
    requires Rv32.Funct3(w) == Code3(op) && Rv32.Funct7(w) == Code7(op)
    ensures Rv32.DecodeOp(w) == Rv32.Defaults(w).(regWrite := true, alu := RvOp(op))
  {
    hide Rv32.Field5, Rv32.Bits, Rv32.Funct3, Rv32.Funct7;
    match op
    case ADD =>
    case SUB =>
    case SLL =>
    case SLT =>
    case SLTU =>
    case XOR =>
    case SRL =>
    case SRA =>
    case OR =>
    case AND =>
  }

  lemma DecodeOp(w: Word, op: IntOp, rd: bv5, rs1: bv5, rs2: bv5)
    requires Parts(w, 0x33, rd, Funct3Of(op), rs1, rs2) && Rv32.Funct7(w) as Word == Funct7Of(op)
    ensures Computes(Rv32.Decode(w), RvOp(op), false, false, Rv32.WbAlu, rd)
    ensures Rv32.Decode(w).rs1 == rs1 && Rv32.Decode(w).rs2 == rs2
  {
    hide Rv32.Field5, Rv32.Bits, Rv32.Funct3, Rv32.Funct7, Rv32.DecodeOp, Rv32.Decode;
    DecodeClassOp(w);
    OpTable(w, op);
  }

  predicate OpImmParts(w: Word, op: IntOp, rd: bv5, rs1: bv5) {
    w & 0x7F == 0x13 && Rv32.Field5(w, 7) == rd && Rv32.Funct3(w) as Word == Funct3Of(op) && Rv32.Field5(w, 15) == rs1
  }

  lemma ImmTable(w: Word, op: IntOp)
    requires op != SUB && Rv32.Funct3(w) == Code3(op)
    requires Shift(op) ==> Rv32.Funct7(w) == Code7(op) && (w & 0x4000_0000 != 0 <==> op == SRA)
    ensures Rv32.DecodeOpImm(w)
      == Rv32.Defaults(w).(imm := Rv32.ImmI(w), bImm := true, regWrite := true, alu := RvOp(op))
  {
    hide Rv32.Field5, Rv32.Bits, Rv32.Funct3, Rv32.Funct7, Rv32.ImmI;
    match op
    case ADD =>
    case SLL =>
    case SLT =>
    case SLTU =>
    case XOR =>
    case SRL =>
    case SRA =>
    case OR =>
    case AND =>
  }

  lemma DecodeOpImm(w: Word, op: IntOp, rd: bv5, rs1: bv5)
    requires op != SUB && OpImmParts(w, op, rd, rs1)
    requires Shift(op) ==> Rv32.Funct7(w) as Word == Funct7Of(op) && (w & 0x4000_0000 != 0 <==> op == SRA)
    ensures Computes(Rv32.Decode(w), RvOp(op), false, true, Rv32.WbAlu, rd)
    ensures Rv32.Decode(w).rs1 == rs1 && Rv32.Decode(w).imm == Rv32.ImmI(w)
  {
    hide Rv32.Field5, Rv32.Bits, Rv32.Funct3, Rv32.Funct7, Rv32.ImmI, Rv32.DecodeOpImm, Rv32.Decode;
    DecodeClassOp(w);
    ImmTable(w, op);
  }

  lemma DecodeJumps(w: Word, rd: bv5)
    requires Rv32.Field5(w, 7) == rd
    ensures var d := Rv32.Decode(w);
      && (w & 0x7F == 0x6F ==> d.jal && !d.jalr && d.imm == Rv32.ImmJ(w))
      && (w & 0x7F == 0x67 && Rv32.Funct3(w) == 0 ==> !d.jal && d.jalr && d.imm == Rv32.ImmI(w))
      && (w & 0x7F == 0x6F || (w & 0x7F == 0x67 && Rv32.Funct3(w) == 0) ==>
            !d.memRead && !d.memWrite && !d.branch && !d.mret && !d.csr && !d.illegal && d.regWrite
            && d.wb == Rv32.WbPc4 && d.rd == rd && d.rs1 == Rv32.Field5(w, 15))
  {
    hide Rv32.Field5, Rv32.Bits, Rv32.Funct3, Rv32.Funct7, Rv32.ImmI, Rv32.ImmJ;
  }

  lemma DecodeBranch(w: Word, c: Cond)
    requires w & 0x7F == 0x63 && Rv32.Funct3(w) as Word == CondCode(c)
    ensures var d := Rv32.Decode(w);
      && d.branch && !d.jal && !d.jalr && !d.memRead && !d.memWrite && !d.mret && !d.csr && !d.illegal && !d.regWrite
      && d.funct3 as Word == CondCode(c) && d.rs1 == Rv32.Field5(w, 15) && d.rs2 == Rv32.Field5(w, 20)
      && d.imm == Rv32.ImmB(w)
  {
    hide Rv32.Field5, Rv32.Bits, Rv32.Funct3, Rv32.Funct7, Rv32.ImmB;
  }

  // An access that computes its address from rs1 and the immediate
  predicate Accesses(d: Rv32.Control, load: bool, width: Width, rs1: bv5, imm: Word) {
    && d.memRead == load && d.memWrite == !load && !d.branch && !d.jal && !d.jalr && !d.mret && !d.csr && !d.illegal
    && d.alu == Rv32.Add && !d.aPc && d.bImm && d.rs1 == rs1 && d.imm == imm && d.funct3 == Funct3Bits(width)
  }

  lemma DecodeLoad(w: Word, width: Width)
    requires w & 0x7F == 0x03 && Rv32.Funct3(w) as Word == WidthCode(width)
    ensures Accesses(Rv32.Decode(w), true, width, Rv32.Field5(w, 15), Rv32.ImmI(w))
    ensures Rv32.Decode(w).rd == Rv32.Field5(w, 7)
  {
    hide Rv32.Field5, Rv32.Bits, Rv32.Funct3, Rv32.Funct7, Rv32.ImmI;
  }

  lemma DecodeStore(w: Word, width: Width)
    requires (width == B || width == H || width == W4) && w & 0x7F == 0x23 && Rv32.Funct3(w) as Word == WidthCode(width)
    ensures Accesses(Rv32.Decode(w), false, width, Rv32.Field5(w, 15), Rv32.ImmS(w))
    ensures Rv32.Decode(w).rs2 == Rv32.Field5(w, 20)
  {
    hide Rv32.Field5, Rv32.Bits, Rv32.Funct3, Rv32.Funct7, Rv32.ImmS;
  }

  lemma DecodeFence(w: Word)
    requires w & 0x7F == 0x0F
    ensures Simple(Rv32.Decode(w)) && !Rv32.Decode(w).regWrite
  {
    hide Rv32.Field5, Rv32.Bits, Rv32.Funct3, Rv32.Funct7;
  }

  lemma DecodeMret()
    ensures var d := Rv32.Decode(0x3020_0073);
      d.mret && !d.memRead && !d.memWrite && !d.illegal
  {
    hide Rv32.Field5, Rv32.Bits, Rv32.Funct3, Rv32.Funct7;
    assert (0x3020_0073 as Word) & 0x7F == 0x73;
  }

  function CsrCode(k: CsrKind, imm: bool): bv3 {
    (KindCode(k) + if imm then 4 else 0) as bv3
  }

  lemma SystemTable(w: Word, k: CsrKind, n: CsrName, imm: bool)
    requires Rv32.Funct3(w) == CsrCode(k, imm) && Rv32.Bits(w, 20, 0xFFF) == CsrNumber(n) && w != 0x3020_0073
    ensures Rv32.DecodeSystem(w) == Rv32.Defaults(w).(
      csr := true, csrImm := imm, regWrite := true, wb := Rv32.WbCsr, csrOp := RvKind(k))
    ensures Rv32.Defaults(w).csrAddr == Number(n)
  {
    hide Rv32.Field5, Rv32.Bits, Rv32.Funct3, Rv32.Funct7;
    match k
    case RW =>
    case RS =>
    case RC =>
  }

  lemma DecodeCsr(w: Word, k: CsrKind, n: CsrName, imm: bool)
    requires w & 0x7F == 0x73 && Rv32.Funct3(w) == CsrCode(k, imm) && Rv32.Bits(w, 20, 0xFFF) == CsrNumber(n)
    ensures var d := Rv32.Decode(w);
      && CsrInsn(d, k, n) && d.csrImm == imm && d.regWrite && d.wb == Rv32.WbCsr
      && !d.memRead && !d.memWrite && !d.branch && !d.jal && !d.jalr && !d.mret && !d.illegal
      && d.rd == Rv32.Field5(w, 7) && d.rs1 == Rv32.Field5(w, 15)
  {
    hide Rv32.Field5, Rv32.Bits, Rv32.Funct3, Rv32.Funct7, Rv32.DecodeSystem, Rv32.Decode, CsrCode;
    NotMret(w, k, imm);
    DecodeClassOp(w);
    SystemTable(w, k, n, imm);
  }

  lemma NotMret(w: Word, k: CsrKind, imm: bool)
    requires Rv32.Funct3(w) == CsrCode(k, imm)
    ensures w != 0x3020_0073
  {
  }

  // ----- Executing a decoded instruction -----

  predicate Runs(s: Arch) {
    s.pc & 3 == 0
  }

  lemma ExecMisaligned(s: Arch, w: Word)
    requires !Runs(s)
    ensures Exec(s, w) == TakeTrap(s, 4)
  {
    hide Rv32.Decode, TakeTrap;
  }

  lemma ExecIllegal(s: Arch, w: Word)
    requires Runs(s) && Rv32.Decode(w).illegal
    ensures Exec(s, w) == TakeTrap(s, 3)
  {
    hide Rv32.Decode, TakeTrap;
  }

  lemma ExecSimple(s: Arch, w: Word)
    requires Runs(s) && Simple(Rv32.Decode(w))
    ensures var d := Rv32.Decode(w);
      Exec(s, w) == s.(pc := Rv32.PcPlus4(s.pc),
        regs := Rv32.RegWrite(s.regs, d.regWrite, d.rd, Result(d, s.pc, AluOf(s, w), s.csrs, false)))
  {
    hide Rv32.Decode, TakeTrap, Result, Rv32.PcPlus4, Rv32.RegWrite, AluOf, Rv32.BranchCondition;
  }

  lemma ExecCsr(s: Arch, w: Word)
    requires var d := Rv32.Decode(w);
      && Runs(s) && !d.memRead && !d.memWrite && !d.branch && !d.jal && !d.jalr && !d.mret && !d.illegal && d.regWrite
      && d.wb == Rv32.WbCsr
    ensures var d := Rv32.Decode(w);
      Exec(s, w) == s.(pc := Rv32.PcPlus4(s.pc), csrs := Rv32.CsrAfter(s.csrs, d, OperandA(s, w), false),
        regs := Rv32.RegWrite(s.regs, true, d.rd, Rv32.CsrRead(s.csrs, d.csrAddr, false)))
  {
    hide Rv32.Decode, TakeTrap, Rv32.PcPlus4, Rv32.RegWrite, AluOf, Rv32.CsrAfter, Rv32.CsrRead, Rv32.BranchCondition;
    hide OperandA;
  }

  lemma ExecMret(s: Arch, w: Word)
    requires var d := Rv32.Decode(w);
      Runs(s) && d.mret && !d.memRead && !d.memWrite && !d.illegal
    ensures Exec(s, w) == s.(pc := s.csrs.mepc, csrs := Rv32.MretCsrs(s.csrs))
  {
    hide Rv32.Decode, TakeTrap, Rv32.MretCsrs;
  }

  lemma ExecJump(s: Arch, w: Word)
    requires var d := Rv32.Decode(w);
      && Runs(s) && !d.memRead && !d.memWrite && !d.branch && !d.mret && !d.illegal && (d.jal || d.jalr)
      && d.regWrite && d.wb == Rv32.WbPc4
    ensures var d := Rv32.Decode(w);
      Exec(s, w) == s.(pc := Rv32.JumpTarget(d, s.pc, OperandA(s, w)),
        regs := Rv32.RegWrite(s.regs, true, d.rd, Rv32.PcPlus4(s.pc)))
  {
    hide Rv32.Decode, TakeTrap, Rv32.PcPlus4, Rv32.RegWrite, AluOf, Rv32.JumpTarget, OperandA;
  }

  predicate Branches(d: Rv32.Control) {
    && !d.memRead && !d.memWrite && d.branch && !d.jal && !d.jalr && !d.mret && !d.illegal && !d.csr && !d.regWrite
  }

  lemma ExecBranch(s: Arch, w: Word, v: Word)
    requires Runs(s) && Branches(Rv32.Decode(w)) && v == Result(Rv32.Decode(w), s.pc, AluOf(s, w), s.csrs, false)
    ensures var d, a := Rv32.Decode(w), OperandA(s, w);
      Exec(s, w) == s.(
        pc := if Rv32.BranchCondition(d.funct3, a, OperandB(s, w)) then Rv32.JumpTarget(d, s.pc, a)
              else Rv32.PcPlus4(s.pc),
        regs := Rv32.RegWrite(s.regs, false, d.rd, v))
  {
    hide Rv32.Decode, TakeTrap, Rv32.PcPlus4, AluOf, Rv32.BranchCondition, OperandA, OperandB, Rv32.JumpTarget;
    hide Result, Rv32.RegWrite, Rv32.CsrAfter;
    NoStore(Rv32.Decode(w), AluOf(s, w));
    NoCsr(s.csrs, Rv32.Decode(w), OperandA(s, w));
    if Rv32.BranchCondition(Rv32.Decode(w).funct3, OperandA(s, w), OperandB(s, w)) {
    } else {
    }
  }

  lemma NoCsr(c: Rv32.Csrs, d: Rv32.Control, a: Word)
    requires !d.csr
    ensures Rv32.CsrAfter(c, d, a, false) == c
  {
  }

  lemma ExecLoad(s: Arch, w: Word, width: Width)
    requires var d := Rv32.Decode(w);
      Runs(s) && Accesses(d, true, width, d.rs1, d.imm)
    ensures var d, adr := Rv32.Decode(w), AluOf(s, w);
      Exec(s, w) == if Rv32.LoadMisaligned(d, adr) then TakeTrap(s, 4)
        else s.(pc := Rv32.PcPlus4(s.pc), regs := Rv32.RegWrite(s.regs, true, d.rd,
          Rv32.LoadExtend(Rv32.ReadWord(s.mem, adr), adr & 3, Funct3Bits(width))))
  {
    hide Rv32.Decode, TakeTrap, Rv32.PcPlus4, AluOf, Rv32.RegWrite, Rv32.LoadExtend, Rv32.ReadWord, Funct3Bits;
    hide Rv32.LoadMisaligned, OperandA, OperandB, Rv32.BranchCondition;
    NoStore(Rv32.Decode(w), AluOf(s, w));
  }

  lemma NoStore(d: Rv32.Control, adr: Word)
    ensures !d.memWrite ==> !Rv32.StoreMisaligned(d, adr)
    ensures !d.memRead ==> !Rv32.LoadMisaligned(d, adr)
  {
  }

  lemma ExecStore(s: Arch, w: Word, width: Width)
    requires var d := Rv32.Decode(w);
      Runs(s) && Accesses(d, false, width, d.rs1, d.imm)
    ensures var d, adr := Rv32.Decode(w), AluOf(s, w);
      Exec(s, w) == if Rv32.StoreMisaligned(d, adr) then TakeTrap(s, 4)
        else s.(pc := Rv32.PcPlus4(s.pc), mem := Written(s.mem, adr, OperandB(s, w), Funct3Bits(width)))
  {
    hide Rv32.Decode, TakeTrap, Rv32.PcPlus4, AluOf, Rv32.RegWrite, Rv32.StoreData, Rv32.StoreSel, Funct3Bits;
    hide Rv32.StoreMisaligned, OperandA, OperandB, Rv32.BranchCondition;
    NoStore(Rv32.Decode(w), AluOf(s, w));
  }
}
