/** Each instruction of the manual executed by the core: Exec on its encoding is its meaning. */
module IsaSteps {
  import opened Words
  import opened Machine
  import opened Isa
  import opened IsaFormats
  import opened IsaMemory
  import opened IsaExec
  import opened Division
  import Rv32

  lemma GoIs(s: Arch, rd: bv5, v: Word, pc: Word, n: int)
    requires ZeroKept(s) && pc == OfInt(n)
    ensures s.(pc := pc, regs := Rv32.RegWrite(s.regs, true, rd, v)) == Go(SetReg(s, rd, v), n)
  {
    hide U, OfInt, Rv32.RegWrite;
    SetRegIs(s, rd, v);
  }

  lemma NextIs(s: Arch, rd: bv5, v: Word)
    requires ZeroKept(s)
    ensures s.(pc := Rv32.PcPlus4(s.pc), regs := Rv32.RegWrite(s.regs, true, rd, v)) == Next(SetReg(s, rd, v))
  {
    hide U, OfInt, Rv32.RegWrite, Rv32.PcPlus4;
    PcPlus4Is(s.pc);
    SetRegIs(s, rd, v);
  }

  lemma QuietIs(s: Arch, rd: bv5, v: Word)
    requires ZeroKept(s)
    ensures Rv32.RegWrite(s.regs, false, rd, v) == s.regs
  {
  }

  lemma UpperBits(n: nat)
    requires n < MODULUS && n % 4096 == 0
    ensures OfInt(n) & 0xFFF == 0
  {
    hide U, OfInt, And;
    OfIntU(n);
    Masks();
    MaskU(OfInt(n), 0xFFF, 12);
    Powers();
    ZeroU();
    SameU(And(OfInt(n), 0xFFF), 0);
    AndForm(OfInt(n), 0xFFF);
  }

  lemma AndForm(a: Word, m: Word)
    ensures And(a, m) == a & m
  {
  }

  lemma LuiIs(s: Arch, rd: bv5, upper: nat)
    requires ZeroKept(s) && Runs(s) && Valid(Lui(rd, upper))
    ensures Exec(s, Encode(Lui(rd, upper))) == Next(SetReg(s, rd, OfInt(upper)))
  {
    hide U, OfInt, Exec, UType, Next, SetReg, Rv32.Decode, Rv32.RegWrite, Rv32.PcPlus4, Rv32.ImmU, Rv32.Field5, AluOf;
    hide OperandA, OperandB;
    var imm := OfInt(upper);
    var w := UType(imm, rd, 0x37);
    UpperBits(upper);
    UParts(imm, rd, 0x37);
    DecodeUpper(w, imm, rd);
    ExecSimple(s, w);
    NextIs(s, rd, imm);
  }

  lemma AuipcIs(s: Arch, rd: bv5, upper: nat)
    requires ZeroKept(s) && Runs(s) && Valid(Auipc(rd, upper))
    ensures Exec(s, Encode(Auipc(rd, upper))) == Next(SetReg(s, rd, OfInt(U(s.pc) + upper)))
  {
    hide U, OfInt, Exec, UType, Next, SetReg, Rv32.Decode, Rv32.RegWrite, Rv32.PcPlus4, Rv32.ImmU, Rv32.Field5;
    hide OperandA, OperandB, Rv32.Alu;
    var imm := OfInt(upper);
    var w := UType(imm, rd, 0x17);
    UpperBits(upper);
    UParts(imm, rd, 0x17);
    DecodeUpper(w, imm, rd);
    ExecSimple(s, w);
    SumIs(s.pc, imm);
    OfIntU(upper);
    OfIntCongruent(U(s.pc) + U(imm), U(s.pc) + upper);
    NextIs(s, rd, OfInt(U(s.pc) + upper));
  }

  // ----- Jumps and branches -----

  lemma OffsetIs(n: int, bound: int)
    requires 0 <= bound <= 0x10_0000 && Fits(n, bound)
    ensures S(OfInt(n)) == n && U(OfInt(n)) == n % MODULUS
    ensures OfInt(n) & 1 == 0 <==> n % 2 == 0
  {
    hide U, S, OfInt;
    OfIntU(n);
    OfIntS(n);
    EvenS(OfInt(n));
  }

  lemma SumOffset(a: Word, n: int)
    ensures Plus(a, OfInt(n)) == OfInt(U(a) + n)
  {
    hide U, OfInt, Plus;
    OfIntU(n);
    PlusU(a, OfInt(n));
    OfIntIs(U(a) + n, Plus(a, OfInt(n)));
  }

  lemma JumpForm(d: Rv32.Control, pc: Word, a: Word)
    ensures Rv32.JumpTarget(d, pc, a) == if d.jalr then Rv32.Clear1(Plus(a, d.imm)) else Plus(pc, d.imm)
  {
    hide Rv32.Clear1, Plus;
  }

  lemma Parity(n: int, k: int, r: int)
    requires n == 2 * k + r
    ensures n % 2 == r % 2
  {
  }

  lemma EvenDown(n: int)
    ensures RoundDown(n % MODULUS, 2) % MODULUS == RoundDown(n, 2) % MODULUS
  {
    EvenParts(n, n / MODULUS, n % MODULUS);
  }

  lemma EvenParts(n: int, q: int, r: nat)
    requires n == q * MODULUS + r && r < MODULUS
    ensures RoundDown(r, 2) % MODULUS == RoundDown(n, 2) % MODULUS
  {
    Parity(n, q * HALF, r);
    DivUnique(RoundDown(n, 2), MODULUS, q, RoundDown(r, 2));
    DivUnique(RoundDown(r, 2), MODULUS, 0, RoundDown(r, 2));
  }

  lemma JalrTarget(a: Word, n: int)
    ensures Rv32.Clear1(Plus(a, OfInt(n))) == OfInt(RoundDown(U(a) + n, 2))
  {
    hide U, OfInt, Plus, Rv32.Clear1;
    SumOffset(a, n);
    OfIntU(U(a) + n);
    Clear1Is(Plus(a, OfInt(n)));
    EvenDown(U(a) + n);
    OfIntCongruent(RoundDown((U(a) + n) % MODULUS, 2), RoundDown(U(a) + n, 2));
  }

  lemma JalIs(s: Arch, rd: bv5, offset: int)
    requires ZeroKept(s) && Runs(s) && Valid(Jal(rd, offset))
    ensures Exec(s, Encode(Jal(rd, offset))) == Go(SetReg(s, rd, OfInt(U(s.pc) + 4)), U(s.pc) + offset)
  {
    hide U, S, OfInt, Exec, JType, Go, SetReg, Rv32.Decode, Rv32.RegWrite, Rv32.PcPlus4, Rv32.ImmJ, Rv32.Field5;
    hide OperandA, Rv32.JumpTarget, Plus, Rv32.FitsSigned;
    var imm := OfInt(offset);
    var w := JType(imm, rd, 0x6F);
    OffsetIs(offset, 0x10_0000);
    FitsIff21(imm);
    JParts(imm, rd, 0x6F);
    DecodeJumps(w, rd);
    ExecJump(s, w);
    JumpForm(Rv32.Decode(w), s.pc, OperandA(s, w));
    SumOffset(s.pc, offset);
    PcPlus4Is(s.pc);
    GoIs(s, rd, Rv32.PcPlus4(s.pc), Rv32.JumpTarget(Rv32.Decode(w), s.pc, OperandA(s, w)), U(s.pc) + offset);
  }

  lemma JalrIs(s: Arch, rd: bv5, rs1: bv5, offset: int)
    requires ZeroKept(s) && Runs(s) && Valid(Jalr(rd, rs1, offset))
    ensures Exec(s, Encode(Jalr(rd, rs1, offset)))
      == Go(SetReg(s, rd, OfInt(U(s.pc) + 4)), RoundDown(U(Reg(s, rs1)) + offset, 2))
  {
    hide U, S, OfInt, Exec, IType, Go, SetReg, Rv32.Decode, Rv32.RegWrite, Rv32.PcPlus4, Rv32.ImmI, Rv32.Field5;
    hide Rv32.JumpTarget, Plus, Rv32.FitsSigned, Rv32.RegRead, Reg, Rv32.Funct3, Rv32.Clear1;
    var imm := OfInt(offset);
    var w := IType(imm, rs1, 0, rd, 0x67);
    OffsetIs(offset, 2048);
    FitsIff12(imm);
    IParts(imm, rs1, 0, rd, 0x67);
    IImm(imm, rs1, 0, rd, 0x67);
    Code0(Rv32.Funct3(w));
    DecodeJumps(w, rd);
    ExecJump(s, w);
    RegIs(s, rs1);
    JumpForm(Rv32.Decode(w), s.pc, Reg(s, rs1));
    JalrTarget(Reg(s, rs1), offset);
    PcPlus4Is(s.pc);
    GoIs(s, rd, Rv32.PcPlus4(s.pc), Rv32.JumpTarget(Rv32.Decode(w), s.pc, Reg(s, rs1)),
         RoundDown(U(Reg(s, rs1)) + offset, 2));
  }

  lemma Code0(f: bv3)
    requires f as Word == 0
    ensures f == 0
  {
  }

  function Code(c: Cond): bv3 {
    CondCode(c) as bv3
  }

  lemma CodeIs(c: Cond, f: bv3)
    requires f as Word == CondCode(c)
    ensures f == Code(c)
  {
  }

  lemma BranchExec(s: Arch, c: Cond, rs1: bv5, rs2: bv5, offset: int)
    requires ZeroKept(s) && Runs(s) && Valid(Branch(c, rs1, rs2, offset))
    ensures Exec(s, Encode(Branch(c, rs1, rs2, offset)))
      == if Holds(c, Reg(s, rs1), Reg(s, rs2)) then Go(s, U(s.pc) + offset) else Next(s)
  {
    hide U, S, OfInt, Exec, BType, Rv32.Decode, Rv32.RegWrite, Rv32.PcPlus4, Rv32.ImmB, Rv32.Field5, Holds;
    hide Rv32.JumpTarget, Plus, Rv32.FitsSigned, Rv32.RegRead, Reg, Rv32.Funct3, Rv32.Clear1, Rv32.BranchCondition,
      Code;
    hide Result, AluOf;
    var imm := OfInt(offset);
    var w := BType(imm, rs2, rs1, CondCode(c), 0x63);
    var a, b := Reg(s, rs1), Reg(s, rs2);
    OffsetIs(offset, 4096);
    FitsIff13(imm);
    BParts(imm, rs2, rs1, CondCode(c), 0x63);
    BImm(imm, rs2, rs1, CondCode(c), 0x63);
    DecodeBranch(w, c);
    CodeIs(c, Rv32.Decode(w).funct3);
    RegIs(s, rs1);
    RegIs(s, rs2);
    var v := Result(Rv32.Decode(w), s.pc, AluOf(s, w), s.csrs, false);
    ExecBranch(s, w, v);
    QuietIs(s, Rv32.Decode(w).rd, v);
    BranchCode(c, a, b);
    JumpForm(Rv32.Decode(w), s.pc, a);
    SumOffset(s.pc, offset);
    PcPlus4Is(s.pc);
  }

  lemma BranchCode(c: Cond, a: Word, b: Word)
    ensures Rv32.BranchCondition(Code(c), a, b) <==> Holds(c, a, b)
  {
    BranchIs(c, a, b);
  }

  // ----- Register computations -----

  lemma ComputeIs(s: Arch, w: Word, op: IntOp, rd: bv5, a: Word, b: Word)
    requires ZeroKept(s) && Runs(s) && Simple(Rv32.Decode(w)) && Rv32.Decode(w).regWrite
    requires Rv32.Decode(w).wb == Rv32.WbAlu && Rv32.Decode(w).rd == rd && AluOf(s, w) == Rv32.Alu(RvOp(op), a, b)
    ensures Exec(s, w) == Next(SetReg(s, rd, Compute(op, a, b)))
  {
    hide Exec, Rv32.Decode, Rv32.RegWrite, Rv32.PcPlus4, AluOf, Next, SetReg, Compute, RvOp, Rv32.Alu;
    ExecSimple(s, w);
    AluIs(op, a, b);
    NextIs(s, rd, Compute(op, a, b));
  }

  lemma OpIs(s: Arch, op: IntOp, rd: bv5, rs1: bv5, rs2: bv5)
    requires ZeroKept(s) && Runs(s)
    ensures Exec(s, Encode(Op(op, rd, rs1, rs2))) == Next(SetReg(s, rd, Compute(op, Reg(s, rs1), Reg(s, rs2))))
  {
    hide Exec, Rv32.Decode, Rv32.RegWrite, Rv32.PcPlus4, Next, SetReg, Compute, RvOp, Rv32.Alu, RType, Parts,
      Rv32.Funct7;
    hide Rv32.RegRead, Reg;
    var w := RType(Funct7Of(op), rs2 as Word, rs1, Funct3Of(op), rd, 0x33);
    RParts(Funct7Of(op), rs2, rs1, Funct3Of(op), rd, 0x33);
    DecodeOp(w, op, rd, rs1, rs2);
    RegIs(s, rs1);
    RegIs(s, rs2);
    ComputeIs(s, w, op, rd, Reg(s, rs1), Reg(s, rs2));
  }

  lemma OpImmIs(s: Arch, op: IntOp, rd: bv5, rs1: bv5, imm: int)
    requires ZeroKept(s) && Runs(s) && Valid(OpImm(op, rd, rs1, imm)) && !Shift(op)
    ensures Exec(s, Encode(OpImm(op, rd, rs1, imm))) == Next(SetReg(s, rd, Compute(op, Reg(s, rs1), OfInt(imm))))
  {
    hide Exec, Rv32.Decode, Rv32.RegWrite, Rv32.PcPlus4, Next, SetReg, Compute, RvOp, Rv32.Alu, IType, Rv32.Funct7;
    hide Rv32.RegRead, Reg, Rv32.ImmI, Rv32.Field5, Rv32.Funct3, U, S, OfInt, Rv32.FitsSigned;
    var v := OfInt(imm);
    var w := IType(v, rs1, Funct3Of(op), rd, 0x13);
    OffsetIs(imm, 2048);
    FitsIff12(v);
    IParts(v, rs1, Funct3Of(op), rd, 0x13);
    IImm(v, rs1, Funct3Of(op), rd, 0x13);
    DecodeOpImm(w, op, rd, rs1);
    RegIs(s, rs1);
    ComputeIs(s, w, op, rd, Reg(s, rs1), v);
  }

  lemma FiveBits(x: Word)
    requires And(x, 0x1F) == x
    ensures x < 32 && (x as bv5) as Word == x
  {
  }

  lemma AmountBits(n: int) returns (r: bv5)
    requires 0 <= n < 32
    ensures r as Word == OfInt(n)
  {
    hide U, OfInt, And;
    OfIntU(n);
    Masks();
    Powers();
    MaskU(OfInt(n), 0x1F, 5);
    SameU(And(OfInt(n), 0x1F), OfInt(n));
    FiveBits(OfInt(n));
    r := OfInt(n) as bv5;
  }

  // Bit 30 tells the two right shifts apart; the low bits of the I immediate are the shift amount
  lemma ShiftBits(op: IntOp, r: bv5, rs1: bv5, rd: bv5)
    requires Shift(op)
    ensures var w := RType(Funct7Of(op), r as Word, rs1, Funct3Of(op), rd, 0x13);
      (w & 0x4000_0000 != 0 <==> op == SRA) && And(Rv32.ImmI(w), 0x1F) == r as Word
  {
    match op
    case SLL =>
    case SRL =>
    case SRA =>
  }

  lemma ComputeShift(op: IntOp, a: Word, b: Word, c: Word)
    requires Shift(op) && U(b) % 32 == U(c) % 32
    ensures Compute(op, a, b) == Compute(op, a, c)
  {
    hide U, S, Power, OfInt;
  }

  lemma SameAmount(b: Word, c: Word)
    requires And(b, 0x1F) == c
    ensures U(b) % 32 == U(c) % 32
  {
    hide U, And;
    Masks();
    Powers();
    MaskU(b, 0x1F, 5);
  }

  lemma ShiftImmIs(s: Arch, op: IntOp, rd: bv5, rs1: bv5, imm: int)
    requires ZeroKept(s) && Runs(s) && Valid(OpImm(op, rd, rs1, imm)) && Shift(op)
    ensures Exec(s, Encode(OpImm(op, rd, rs1, imm))) == Next(SetReg(s, rd, Compute(op, Reg(s, rs1), OfInt(imm))))
  {
    hide Exec, Rv32.Decode, Rv32.RegWrite, Rv32.PcPlus4, Next, SetReg, Compute, RvOp, Rv32.Alu, RType, Rv32.Funct7;
    hide Rv32.RegRead, Reg, Rv32.ImmI, Rv32.Field5, Rv32.Funct3, U, S, OfInt, And;
    var r := AmountBits(imm);
    var w := RType(Funct7Of(op), r as Word, rs1, Funct3Of(op), rd, 0x13);
    RParts(Funct7Of(op), r, rs1, Funct3Of(op), rd, 0x13);
    ShiftBits(op, r, rs1, rd);
    DecodeOpImm(w, op, rd, rs1);
    RegIs(s, rs1);
    ComputeIs(s, w, op, rd, Reg(s, rs1), Rv32.ImmI(w));
    SameAmount(Rv32.ImmI(w), OfInt(imm));
    ComputeShift(op, Reg(s, rs1), Rv32.ImmI(w), OfInt(imm));
  }

  // ----- Memory -----

  lemma MisalignedIs(d: Rv32.Control, load: bool, width: Width, adr: Word)
    requires Accesses(d, load, width, d.rs1, d.imm) && (!load ==> width == B || width == H || width == W4)
    ensures Rv32.LoadMisaligned(d, adr) || Rv32.StoreMisaligned(d, adr) <==> !Aligned(width, U(adr))
    ensures load ==> !Rv32.StoreMisaligned(d, adr)
    ensures !load ==> !Rv32.LoadMisaligned(d, adr)
  {
    hide U;
    LowBitU(adr);
    Aligned4(adr);
    match width
    case B =>
    case H =>
    case W4 =>
    case BU =>
    case HU =>
  }

  lemma AddressIs(s: Arch, w: Word, rs1: bv5, offset: int)
    requires ZeroKept(s) && Rv32.Decode(w).alu == Rv32.Add && !Rv32.Decode(w).aPc && Rv32.Decode(w).bImm
    requires Rv32.Decode(w).rs1 == rs1 && Rv32.Decode(w).imm == OfInt(offset)
    ensures U(AluOf(s, w)) == (U(Reg(s, rs1)) + offset) % MODULUS
  {
    hide U, OfInt, Rv32.Decode, Rv32.Alu, Rv32.RegRead, Reg;
    RegIs(s, rs1);
    SumIs(Reg(s, rs1), OfInt(offset));
    OfIntU(offset);
    OfIntU(U(Reg(s, rs1)) + U(OfInt(offset)));
  }

  lemma LoadExec(s: Arch, width: Width, rd: bv5, rs1: bv5, offset: int)
    requires ZeroKept(s) && Runs(s) && Valid(Load(width, rd, rs1, offset))
    ensures var a := (U(Reg(s, rs1)) + offset) % MODULUS;
      Exec(s, Encode(Load(width, rd, rs1, offset)))
      == if a % Size(width) != 0 then Trap(s, 4) else Next(SetReg(s, rd, OfInt(Loaded(s.mem, width, a))))
  {
    hide Exec, Rv32.Decode, Rv32.RegWrite, Rv32.PcPlus4, Next, SetReg, IType, AluOf, TakeTrap, Trap, Loaded, Reg;
    hide Rv32.ImmI, Rv32.Field5, Rv32.Funct3, U, S, OfInt, Rv32.FitsSigned, Rv32.LoadExtend, Rv32.ReadWord,
      Funct3Bits;
    hide Rv32.LoadMisaligned, Rv32.StoreMisaligned;
    var imm := OfInt(offset);
    var w := IType(imm, rs1, WidthCode(width), rd, 0x03);
    OffsetIs(offset, 2048);
    FitsIff12(imm);
    IParts(imm, rs1, WidthCode(width), rd, 0x03);
    IImm(imm, rs1, WidthCode(width), rd, 0x03);
    DecodeLoad(w, width);
    ExecLoad(s, w, width);
    AddressIs(s, w, rs1, offset);
    var adr := AluOf(s, w);
    MisalignedIs(Rv32.Decode(w), true, width, adr);
    if Aligned(width, U(adr)) {
      LoadIs(s.mem, width, adr);
      LoadBits(width);
      NextIs(s, rd, OfInt(Loaded(s.mem, width, U(adr))));
    } else {
      TrapIs(s, 4);
    }
  }

  lemma LoadBits(width: Width)
    ensures Funct3Bits(width) == WidthCode(width) as bv3
  {
  }

  lemma StoreExec(s: Arch, width: Width, rs1: bv5, rs2: bv5, offset: int)
    requires ZeroKept(s) && Runs(s) && Valid(Store(width, rs1, rs2, offset))
    ensures var a := (U(Reg(s, rs1)) + offset) % MODULUS;
      Exec(s, Encode(Store(width, rs1, rs2, offset)))
      == if a % Size(width) != 0 then Trap(s, 4) else Next(s.(mem := Stored(s.mem, a, Size(width), U(Reg(s, rs2)))))
  {
    hide Exec, Rv32.Decode, Rv32.PcPlus4, SetReg, SType, AluOf, TakeTrap, Trap, Reg, Stored, Written;
    hide Rv32.ImmS, Rv32.Field5, Rv32.Funct3, U, S, OfInt, Rv32.FitsSigned, Funct3Bits, Rv32.RegRead;
    hide Rv32.LoadMisaligned, Rv32.StoreMisaligned;
    var imm := OfInt(offset);
    var w := SType(imm, rs2, rs1, WidthCode(width), 0x23);
    OffsetIs(offset, 2048);
    FitsIff12(imm);
    SParts(imm, rs2, rs1, WidthCode(width), 0x23);
    SImm(imm, rs2, rs1, WidthCode(width), 0x23);
    DecodeStore(w, width);
    ExecStore(s, w, width);
    AddressIs(s, w, rs1, offset);
    RegIs(s, rs2);
    var adr := AluOf(s, w);
    MisalignedIs(Rv32.Decode(w), false, width, adr);
    if Aligned(width, U(adr)) {
      StoreIs(s.mem, width, adr, Reg(s, rs2));
      PcPlus4Is(s.pc);
    } else {
      TrapIs(s, 4);
    }
  }

  // ----- The rest -----

  lemma FenceBits(rest: Word)
    requires rest & 0x7F == 0
    ensures (rest | 0x0F) & 0x7F == 0x0F
  {
  }

  lemma FenceExec(s: Arch, rest: Word)
    requires ZeroKept(s) && Runs(s) && Valid(Fence(rest))
    ensures Exec(s, Encode(Fence(rest))) == Next(s)
  {
    hide Exec, Rv32.Decode, Rv32.RegWrite, Rv32.PcPlus4, AluOf, Result, U, OfInt;
    FenceBits(rest);
    var w := rest | 0x0F;
    DecodeFence(w);
    ExecSimple(s, w);
    QuietIs(s, Rv32.Decode(w).rd, Result(Rv32.Decode(w), s.pc, AluOf(s, w), s.csrs, false));
    PcPlus4Is(s.pc);
  }

  lemma MretExec(s: Arch)
    requires Runs(s)
    ensures Exec(s, Encode(Mret)) == Return(s)
  {
    hide Exec, Rv32.Decode, Rv32.MretCsrs, Restored;
    DecodeMret();
    ExecMret(s, 0x3020_0073);
    MretCsrsIs(s.csrs);
  }

  lemma CsrBits(k: CsrKind, imm: bool, f: bv3)
    requires f as Word == KindCode(k) + if imm then 4 else 0
    ensures f == CsrCode(k, imm)
  {
  }

  lemma NumberBits(n: CsrName)
    ensures CsrNumber(n) & 0xFFF == CsrNumber(n)
  {
  }

  predicate Decoded(d: Rv32.Control, k: CsrKind, n: CsrName, imm: bool, rd: bv5, rs1: bv5) {
    && CsrInsn(d, k, n) && d.csrImm == imm && d.regWrite && d.wb == Rv32.WbCsr && d.rd == rd && d.rs1 == rs1
    && !d.memRead && !d.memWrite && !d.branch && !d.jal && !d.jalr && !d.mret && !d.illegal
  }

  lemma CsrDecoded(k: CsrKind, n: CsrName, imm: bool, rd: bv5, rs1: bv5, f: Word)
    requires f == KindCode(k) + if imm then 4 else 0
    ensures Decoded(Rv32.Decode(IType(CsrNumber(n), rs1, f, rd, 0x73)), k, n, imm, rd, rs1)
  {
    hide Rv32.Decode, IType, CsrCode, Rv32.Field5, Rv32.Funct3, Rv32.Bits, CsrInsn;
    var w := IType(CsrNumber(n), rs1, f, rd, 0x73);
    IParts(CsrNumber(n), rs1, f, rd, 0x73);
    NumberBits(n);
    CsrBits(k, imm, Rv32.Funct3(w));
    DecodeCsr(w, k, n, imm);
  }

  lemma AccessIs(s: Arch, w: Word, k: CsrKind, n: CsrName, imm: bool, rd: bv5, rs1: bv5, source: Word)
    requires ZeroKept(s) && Runs(s) && Decoded(Rv32.Decode(w), k, n, imm, rd, rs1)
    requires source == if imm then rs1 as Word else Reg(s, rs1)
    ensures Exec(s, w) == Next(Access(s, k, rd, n, source))
  {
    hide Exec, Rv32.Decode, Rv32.RegWrite, Rv32.PcPlus4, Reg, Rv32.RegRead, Next, SetReg, Updated;
    hide U, OfInt, Rv32.CsrAfter, Rv32.CsrRead, SetCsr, CsrValue, Number, RvKind;
    ExecCsr(s, w);
    RegIs(s, rs1);
    CsrAfterIs(s.csrs, Rv32.Decode(w), k, n, OperandA(s, w));
    CsrReadIs(s.csrs, n);
    NextIs(s.(csrs := Rv32.CsrAfter(s.csrs, Rv32.Decode(w), OperandA(s, w), false)), rd, CsrValue(s.csrs, n));
  }

  // ----- Every instruction -----

  lemma ImmIs(s: Arch, op: IntOp, rd: bv5, rs1: bv5, imm: int)
    requires ZeroKept(s) && Runs(s) && Valid(OpImm(op, rd, rs1, imm))
    ensures Exec(s, Encode(OpImm(op, rd, rs1, imm))) == Next(SetReg(s, rd, Compute(op, Reg(s, rs1), OfInt(imm))))
  {
    hide Exec, Encode, Next, SetReg, Compute;
    if Shift(op) {
      ShiftImmIs(s, op, rd, rs1, imm);
    } else {
      OpImmIs(s, op, rd, rs1, imm);
    }
  }

  lemma CsrRegIs(s: Arch, kind: CsrKind, rd: bv5, csr: CsrName, rs1: bv5)
    requires ZeroKept(s) && Runs(s)
    ensures Exec(s, Encode(CsrReg(kind, rd, csr, rs1))) == Next(Access(s, kind, rd, csr, Reg(s, rs1)))
  {
    hide Exec, Next, Access, IType, Decoded, Rv32.Decode;
    CsrDecoded(kind, csr, false, rd, rs1, KindCode(kind));
    AccessIs(s, Encode(CsrReg(kind, rd, csr, rs1)), kind, csr, false, rd, rs1, Reg(s, rs1));
  }

  lemma CsrImmIs(s: Arch, kind: CsrKind, rd: bv5, csr: CsrName, uimm: bv5)
    requires ZeroKept(s) && Runs(s)
    ensures Exec(s, Encode(CsrImm(kind, rd, csr, uimm))) == Next(Access(s, kind, rd, csr, uimm as Word))
  {
    hide Exec, Next, Access, IType, Decoded, Rv32.Decode, KindCode, CsrNumber, Reg, Runs, ZeroKept, U, OfInt;
    CsrDecoded(kind, csr, true, rd, uimm, KindCode(kind) + 4);
    AccessIs(s, Encode(CsrImm(kind, rd, csr, uimm)), kind, csr, true, rd, uimm, uimm as Word);
  }

  // Executing the encoding of an instruction does what the instruction means
  lemma {:induction false} ExecMeans(s: Arch, i: Insn)
    requires ZeroKept(s) && Valid(i)
    ensures Exec(s, Encode(i)) == Meaning(i, s)
  {
    hide Exec, Encode, TakeTrap, Trap, Next, Go, SetReg, Access, Return, Compute, Reg, Holds, Loaded, Stored, U,
      OfInt;
    Aligned4(s.pc);
    if !Runs(s) {
      ExecMisaligned(s, Encode(i));
      TrapIs(s, 4);
    } else {
      match i
      case Lui(rd, upper) => LuiIs(s, rd, upper);
      case Auipc(rd, upper) => AuipcIs(s, rd, upper);
      case Jal(rd, offset) => JalIs(s, rd, offset);
      case Jalr(rd, rs1, offset) => JalrIs(s, rd, rs1, offset);
      case Branch(cond, rs1, rs2, offset) => BranchExec(s, cond, rs1, rs2, offset);
      case Load(width, rd, rs1, offset) => LoadExec(s, width, rd, rs1, offset);
      case Store(width, rs1, rs2, offset) => StoreExec(s, width, rs1, rs2, offset);
      case OpImm(op, rd, rs1, imm) => ImmIs(s, op, rd, rs1, imm);
      case Op(op, rd, rs1, rs2) => OpIs(s, op, rd, rs1, rs2);
      case Fence(rest) => FenceExec(s, rest);
      case CsrReg(kind, rd, csr, rs1) => CsrRegIs(s, kind, rd, csr, rs1);
      case CsrImm(kind, rd, csr, uimm) => CsrImmIs(s, kind, rd, csr, uimm);
      case Mret => MretExec(s);
    }
  }

  // One step of the machine on memory that holds the encoding of i is what the manual says i does
  lemma {:induction false} StepMeans(s: Arch, i: Insn)
    requires ZeroKept(s) && Valid(i) && Rv32.ReadWord(s.mem, s.pc) == Encode(i)
    ensures Step(s) == Meaning(i, s)
  {
    hide Exec, Encode, Meaning, Rv32.ReadWord;
    ExecMeans(s, i);
  }

  // x0 stays zero, whatever word is executed
  lemma {:induction false} StepKeepsZero(s: Arch)
    requires ZeroKept(s)
    ensures ZeroKept(Step(s))
  {
    hide Rv32.Decode, Rv32.ReadWord, TakeTrap, Rv32.JumpTarget, Rv32.LoadExtend, Rv32.StoreData, Result, AluOf,
      Exception;
    hide Rv32.CsrAfter, Rv32.MretCsrs, Rv32.PcPlus4, Rv32.StoreSel, OperandA, OperandB, Rv32.JumpTaken, Rv32.RegWrite;
    var w := Rv32.ReadWord(s.mem, s.pc);
    TrapKeepsZero(s, Exception(s, w));
    WriteKeepsZero(s.regs, Rv32.Decode(w).regWrite, Rv32.Decode(w).rd,
      Result(Rv32.Decode(w), s.pc, AluOf(s, w), s.csrs, false));
    var adr := AluOf(s, w);
    WriteKeepsZero(s.regs, true, Rv32.Decode(w).rd,
                   Rv32.LoadExtend(Rv32.ReadWord(s.mem, adr), adr & 3, Rv32.Decode(w).funct3));
  }

  lemma TrapKeepsZero(s: Arch, cause: Word)
    requires ZeroKept(s)
    ensures ZeroKept(TakeTrap(s, cause))
  {
    hide Rv32.TrapCsrs, Rv32.TrapVector;
  }

  lemma WriteKeepsZero(x: Rv32.Regs, enable: bool, r: bv5, v: Word)
    ensures Rv32.RegWrite(x, enable, r, v)[0] == 0
  {
  }
}
