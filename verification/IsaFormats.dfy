/** The core's decoder, immediates, ALU and branch unit against the manual: what each field of an encoded
    instruction decodes to, and what the arithmetic computes on the numbers its operands stand for. */
module IsaFormats {
  import opened Words
  import opened Isa
  import Rv32

  predicate Parts(w: Word, opcode: Word, rd: bv5, funct3: Word, rs1: bv5, rs2: bv5) {
    && w & 0x7F == opcode && Rv32.Field5(w, 7) == rd && Rv32.Funct3(w) as Word == funct3
    && Rv32.Field5(w, 15) == rs1 && Rv32.Field5(w, 20) == rs2
  }

  lemma RParts(funct7: Word, second: bv5, rs1: bv5, funct3: Word, rd: bv5, opcode: Word)
    requires funct7 <= 0x7F && funct3 <= 7 && opcode <= 0x7F
    ensures var w := RType(funct7, second as Word, rs1, funct3, rd, opcode);
      Parts(w, opcode, rd, funct3, rs1, second) && Rv32.Funct7(w) as Word == funct7
  {
  }

  lemma IParts(imm: Word, rs1: bv5, funct3: Word, rd: bv5, opcode: Word)
    requires funct3 <= 7 && opcode <= 0x7F
    ensures var w := IType(imm, rs1, funct3, rd, opcode);
      && w & 0x7F == opcode && Rv32.Field5(w, 7) == rd && Rv32.Funct3(w) as Word == funct3 && Rv32.Field5(w, 15) == rs1
      && Rv32.Bits(w, 20, 0xFFF) == imm & 0xFFF
  {
  }

  predicate SameSign(w: Word, imm: Word, mask: Word) {
    w & 0x8000_0000 != 0 <==> imm & mask != 0
  }

  lemma IBits(imm: Word, rs1: bv5, funct3: Word, rd: bv5, opcode: Word)
    requires funct3 <= 7 && opcode <= 0x7F
    ensures var w := IType(imm, rs1, funct3, rd, opcode);
      SameSign(w, imm, 0x800) && Rv32.Bits(w, 20, 0xFFF) == imm & 0xFFF
  {
  }

  lemma JoinedI(w: Word, imm: Word)
    requires Rv32.FitsSigned(imm, 0xFFFF_F800) && SameSign(w, imm, 0x800)
    ensures Rv32.SignFill(w, 0xFFFF_F000) | (imm & 0xFFF) == imm
  {
  }

  lemma IImm(imm: Word, rs1: bv5, funct3: Word, rd: bv5, opcode: Word)
    requires funct3 <= 7 && opcode <= 0x7F && Rv32.FitsSigned(imm, 0xFFFF_F800)
    ensures Rv32.ImmI(IType(imm, rs1, funct3, rd, opcode)) == imm
  {
    hide IType, SameSign, Rv32.FitsSigned, Rv32.SignFill, Rv32.Bits;
    IBits(imm, rs1, funct3, rd, opcode);
    JoinedI(IType(imm, rs1, funct3, rd, opcode), imm);
  }

  lemma SParts(imm: Word, rs2: bv5, rs1: bv5, funct3: Word, opcode: Word)
    requires funct3 <= 7 && opcode <= 0x7F
    ensures var w := SType(imm, rs2, rs1, funct3, opcode);
      && w & 0x7F == opcode && Rv32.Funct3(w) as Word == funct3 && Rv32.Field5(w, 15) == rs1
        && Rv32.Field5(w, 20) == rs2
  {
  }

  lemma SBits(imm: Word, rs2: bv5, rs1: bv5, funct3: Word, opcode: Word)
    requires funct3 <= 7 && opcode <= 0x7F
    ensures var w := SType(imm, rs2, rs1, funct3, opcode);
      && SameSign(w, imm, 0x800) && Rv32.Bits(w, 25, 0x7F) == (imm >> 5) & 0x7F && Rv32.Bits(w, 7, 0x1F) == imm & 0x1F
  {
  }

  lemma JoinedS(w: Word, imm: Word)
    requires Rv32.FitsSigned(imm, 0xFFFF_F800) && SameSign(w, imm, 0x800)
    ensures Rv32.SignFill(w, 0xFFFF_F000) | (((imm >> 5) & 0x7F) << 5) | (imm & 0x1F) == imm
  {
  }

  lemma SImm(imm: Word, rs2: bv5, rs1: bv5, funct3: Word, opcode: Word)
    requires funct3 <= 7 && opcode <= 0x7F && Rv32.FitsSigned(imm, 0xFFFF_F800)
    ensures Rv32.ImmS(SType(imm, rs2, rs1, funct3, opcode)) == imm
  {
    hide SType, SameSign, Rv32.FitsSigned, Rv32.SignFill, Rv32.Bits;
    SBits(imm, rs2, rs1, funct3, opcode);
    JoinedS(SType(imm, rs2, rs1, funct3, opcode), imm);
  }

  lemma BParts(imm: Word, rs2: bv5, rs1: bv5, funct3: Word, opcode: Word)
    requires funct3 <= 7 && opcode <= 0x7F
    ensures var w := BType(imm, rs2, rs1, funct3, opcode);
      && w & 0x7F == opcode && Rv32.Funct3(w) as Word == funct3 && Rv32.Field5(w, 15) == rs1
        && Rv32.Field5(w, 20) == rs2
  {
  }

  lemma BBits(imm: Word, rs2: bv5, rs1: bv5, funct3: Word, opcode: Word)
    requires funct3 <= 7 && opcode <= 0x7F
    ensures var w := BType(imm, rs2, rs1, funct3, opcode);
      && SameSign(w, imm, 0x1000) && Rv32.Bits(w, 7, 1) == (imm >> 11) & 1
      && Rv32.Bits(w, 25, 0x3F) == (imm >> 5) & 0x3F && Rv32.Bits(w, 8, 0xF) == (imm >> 1) & 0xF
  {
  }

  lemma JoinedB(w: Word, imm: Word)
    requires Rv32.FitsSigned(imm, 0xFFFF_F000) && imm & 1 == 0 && SameSign(w, imm, 0x1000)
    ensures Rv32.SignFill(w, 0xFFFF_F000) | (((imm >> 11) & 1) << 11) | (((imm >> 5) & 0x3F) << 5)
      | (((imm >> 1) & 0xF) << 1) == imm
  {
  }

  lemma BImm(imm: Word, rs2: bv5, rs1: bv5, funct3: Word, opcode: Word)
    requires funct3 <= 7 && opcode <= 0x7F && Rv32.FitsSigned(imm, 0xFFFF_F000) && imm & 1 == 0
    ensures Rv32.ImmB(BType(imm, rs2, rs1, funct3, opcode)) == imm
  {
    hide BType, SameSign, Rv32.FitsSigned, Rv32.SignFill, Rv32.Bits;
    BBits(imm, rs2, rs1, funct3, opcode);
    JoinedB(BType(imm, rs2, rs1, funct3, opcode), imm);
  }

  lemma UParts(imm: Word, rd: bv5, opcode: Word)
    requires opcode <= 0x7F && imm & 0xFFF == 0
    ensures var w := UType(imm, rd, opcode);
      && w & 0x7F == opcode && Rv32.Field5(w, 7) == rd && Rv32.ImmU(w) == imm
  {
  }

  lemma JParts(imm: Word, rd: bv5, opcode: Word)
    requires opcode <= 0x7F && Rv32.FitsSigned(imm, 0xFFF0_0000) && imm & 1 == 0
    ensures var w := JType(imm, rd, opcode);
      && w & 0x7F == opcode && Rv32.Field5(w, 7) == rd && Rv32.ImmJ(w) == imm
  {
  }

  // ----- The numbers the immediates stand for -----

  lemma Times2(x: Word)
    requires x < 0x8000_0000
    ensures U(2 * x) == 2 * U(x)
  {
    assert (2 * x) >> 1 == x;
    assert (2 * x) & 1 == 0;
  }

  lemma Bounds()
    ensures U(0x800) == 2048 && U(0x1000) == 4096 && U(0x10_0000) == 0x10_0000
  {
    ZeroU();
    UnfoldU(1);
    hide U;
    Times2(1); Times2(2); Times2(4); Times2(8); Times2(0x10); Times2(0x20); Times2(0x40); Times2(0x80); Times2(0x100);
    Times2(0x200); Times2(0x400); Times2(0x800); Times2(0x1000); Times2(0x2000); Times2(0x4000); Times2(0x8000);
    Times2(0x1_0000); Times2(0x2_0000); Times2(0x4_0000); Times2(0x8_0000);
  }

  lemma Complement(low: Word, high: Word)
    requires low + high == 0 && low != 0
    ensures U(high) == MODULUS - U(low)
  {
    hide U;
    AddU(low, high);
    ZeroU();
    RangeU(low);
    RangeU(high);
    LessIff(low, 0);
  }

  lemma Masks12(x: Word)
    ensures x & 0xFFFF_F800 == 0 <==> Less(x, 0x800)
    ensures x & 0xFFFF_F800 == 0xFFFF_F800 <==> !Less(x, 0xFFFF_F800)
  {
  }

  lemma Masks13(x: Word)
    ensures x & 0xFFFF_F000 == 0 <==> Less(x, 0x1000)
    ensures x & 0xFFFF_F000 == 0xFFFF_F000 <==> !Less(x, 0xFFFF_F000)
  {
  }

  lemma Masks21(x: Word)
    ensures x & 0xFFF0_0000 == 0 <==> Less(x, 0x10_0000)
    ensures x & 0xFFF0_0000 == 0xFFF0_0000 <==> !Less(x, 0xFFF0_0000)
  {
  }

  // A word is the sign extension of its low 12, 13 or 21 bits when its number is in the range of that width
  lemma FitsIff12(x: Word)
    ensures Rv32.FitsSigned(x, 0xFFFF_F800) <==> Fits(S(x), 2048)
  {
    hide U, Less, Negative;
    Masks12(x);
    Bounds();
    Complement(0x800, 0xFFFF_F800);
    LessIff(x, 0x800);
    LessIff(x, 0xFFFF_F800);
    NegativeIs(x);
    RangeU(x);
  }

  lemma FitsIff13(x: Word)
    ensures Rv32.FitsSigned(x, 0xFFFF_F000) <==> Fits(S(x), 4096)
  {
    hide U, Less, Negative;
    Masks13(x);
    Bounds();
    Complement(0x1000, 0xFFFF_F000);
    LessIff(x, 0x1000);
    LessIff(x, 0xFFFF_F000);
    NegativeIs(x);
    RangeU(x);
  }

  lemma FitsIff21(x: Word)
    ensures Rv32.FitsSigned(x, 0xFFF0_0000) <==> Fits(S(x), 0x10_0000)
  {
    hide U, Less, Negative;
    Masks21(x);
    Bounds();
    Complement(0x10_0000, 0xFFF0_0000);
    LessIff(x, 0x10_0000);
    LessIff(x, 0xFFF0_0000);
    NegativeIs(x);
    RangeU(x);
  }

  lemma EvenS(x: Word)
    ensures x & 1 == 0 <==> S(x) % 2 == 0
  {
    hide U, Negative;
    LowBitU(x);
  }

  // ----- Arithmetic and branches -----

  function RvOp(op: IntOp): Rv32.AluOp {
    match op
    case ADD => Rv32.Add
    case SUB => Rv32.Sub
    case SLL => Rv32.Sll
    case SLT => Rv32.Slt
    case SLTU => Rv32.Sltu
    case XOR => Rv32.Xor
    case SRL => Rv32.Srl
    case SRA => Rv32.Sra
    case OR => Rv32.Or
    case AND => Rv32.And
  }

  function Amount(b: Word): Word {
    b & 0x1F
  }

  lemma AmountU(b: Word)
    ensures Amount(b) < 32 && U(Amount(b)) == U(b) % 32
  {
    Masks();
    Powers();
    MaskU(b, 0x1F, 5);
  }

  lemma AmountSmall(b: Word)
    ensures b & 0x1F < 32
  {
  }

  lemma SllForm(a: Word, b: Word)
    requires b & 0x1F < 32
    ensures Rv32.Alu(Rv32.Sll, a, b) == Left(a, b & 0x1F)
  {
  }

  lemma SrlForm(a: Word, b: Word)
    requires b & 0x1F < 32
    ensures Rv32.Alu(Rv32.Srl, a, b) == Right(a, b & 0x1F)
  {
  }

  lemma SraForm(a: Word, b: Word)
    requires b & 0x1F < 32
    ensures Rv32.Alu(Rv32.Sra, a, b) == RightSigned(a, b & 0x1F)
  {
    hide RightSigned;
  }

  lemma SumForms(a: Word, b: Word)
    ensures Rv32.Alu(Rv32.Add, a, b) == Plus(a, b) && Rv32.Alu(Rv32.Sub, a, b) == Minus(a, b)
  {
  }

  lemma AluForms(a: Word, b: Word)
    ensures Amount(b) < 32
    ensures Rv32.Alu(Rv32.Sll, a, b) == Left(a, Amount(b)) && Rv32.Alu(Rv32.Srl, a, b) == Right(a, Amount(b))
    ensures Rv32.Alu(Rv32.Sra, a, b) == RightSigned(a, Amount(b))
  {
    hide Left, Right, RightSigned, Rv32.Alu;
    AmountSmall(b);
    SllForm(a, b);
    SrlForm(a, b);
    SraForm(a, b);
  }

  lemma ShiftLeftIs(a: Word, b: Word)
    ensures Rv32.Alu(Rv32.Sll, a, b) == OfInt(U(a) * Power(U(b) % 32))
  {
    hide U, OfInt, Power, Left, Right, RightSigned, Amount, Plus, Minus, Rv32.Alu;
    AluForms(a, b);
    AmountU(b);
    LeftU(a, Amount(b));
    OfIntIs(U(a) * Power(U(b) % 32), Left(a, Amount(b)));
  }

  lemma ShiftRightIs(a: Word, b: Word)
    ensures Rv32.Alu(Rv32.Srl, a, b) == OfInt(U(a) / Power(U(b) % 32))
    ensures Rv32.Alu(Rv32.Sra, a, b) == OfInt(S(a) / Power(U(b) % 32))
  {
    hide U, S, OfInt, Power, Left, Right, RightSigned, Amount, Plus, Minus, Rv32.Alu;
    AluForms(a, b);
    AmountU(b);
    RightU(a, Amount(b));
    OfIntOfU(Right(a, Amount(b)));
    RightSignedS(a, Amount(b));
    OfIntOfU(RightSigned(a, Amount(b)));
  }

  lemma SumIs(a: Word, b: Word)
    ensures Rv32.Alu(Rv32.Add, a, b) == OfInt(U(a) + U(b)) && Rv32.Alu(Rv32.Sub, a, b) == OfInt(U(a) - U(b))
  {
    hide U, OfInt, Plus, Minus, Rv32.Alu;
    SumForms(a, b);
    PlusU(a, b);
    MinusU(a, b);
    OfIntIs(U(a) + U(b), Plus(a, b));
    OfIntIs(U(a) - U(b), Minus(a, b));
  }

  lemma SignedLessIs(a: Word, b: Word)
    ensures Rv32.SignedLess(a, b) <==> S(a) < S(b)
  {
    hide S, Less, Flip;
    LessS(a, b);
  }

  // What each operation of the ALU computes, on the numbers its operands stand for
  lemma AluIs(op: IntOp, a: Word, b: Word)
    ensures Rv32.Alu(RvOp(op), a, b) == Compute(op, a, b)
  {
    match op
    case ADD => SumIs(a, b);
    case SUB => SumIs(a, b);
    case SLL => ShiftLeftIs(a, b);
    case SRL => ShiftRightIs(a, b);
    case SRA => ShiftRightIs(a, b);
    case SLT => ComparisonIs(a, b);
    case SLTU => ComparisonIs(a, b);
    case _ => LogicIs(op, a, b);
  }

  lemma ComparisonIs(a: Word, b: Word)
    ensures Rv32.Alu(Rv32.Slt, a, b) == if S(a) < S(b) then 1 else 0
    ensures Rv32.Alu(Rv32.Sltu, a, b) == if U(a) < U(b) then 1 else 0
  {
    hide U, S, Rv32.SignedLess;
    SignedLessIs(a, b);
    LessU(a, b);
  }

  lemma LogicIs(op: IntOp, a: Word, b: Word)
    requires op == XOR || op == OR || op == AND
    ensures Rv32.Alu(RvOp(op), a, b) == Compute(op, a, b)
  {
  }

  lemma BranchIs(c: Cond, a: Word, b: Word)
    ensures Rv32.BranchCondition(CondCode(c) as bv3, a, b) <==> Holds(c, a, b)
  {
    hide U, S, Rv32.SignedLess;
    SignedLessIs(a, b);
    LessU(a, b);
    LessU(b, a);
    NotLess(a, b);
  }

  lemma NotLess(a: Word, b: Word)
    ensures a >= b <==> !Less(a, b)
  {
  }

  // ----- Bytes of a word -----

  lemma SmallNumbers()
    ensures U(0) == 0 && U(1) == 1 && U(2) == 2 && U(3) == 3 && U(8) == 8 && U(16) == 16 && U(24) == 24
  {
    UnfoldU(1); UnfoldU(2); UnfoldU(3); UnfoldU(4); UnfoldU(8); UnfoldU(16); UnfoldU(6); UnfoldU(12); UnfoldU(24);
  }

  function Shifted(w: Word, k: Word): Word {
    match k
    case 0 => w
    case 1 => Right(w, 8)
    case 2 => Right(w, 16)
    case _ => Right(w, 24)
  }

  lemma SelectedForm(w: Word, k: Word)
    requires k <= 3
    ensures Rv32.SelectedByte(w, k) == And(Shifted(w, k), 0xFF)
  {
  }

  lemma ShiftedU(w: Word, k: Word)
    requires k == 0 || k == 1 || k == 2 || k == 3
    ensures U(Shifted(w, k)) == U(w) / Power(8 * U(k))
  {
    SmallNumbers();
    hide U, Right;
    Powers();
    RightU(w, 8);
    RightU(w, 16);
    RightU(w, 24);
  }

  lemma SelectedU(w: Word, k: Word)
    requires k == 0 || k == 1 || k == 2 || k == 3
    ensures U(Rv32.SelectedByte(w, k)) == Digit(U(w), U(k))
  {
    hide U, Shifted, Rv32.SelectedByte, And;
    SelectedForm(w, k);
    ShiftedU(w, k);
    Masks();
    Powers();
    MaskU(Shifted(w, k), 0xFF, 8);
  }
}
