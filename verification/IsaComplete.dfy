/** Every word the core does not reject encodes an instruction, so the words that encode none are exactly the
    illegal ones. */
module IsaComplete {
  import opened Words
  import opened Machine
  import opened Isa
  import opened IsaFormats
  import opened IsaExec
  import opened IsaSteps
  import Rv32

  // ----- The fields of a word put together again -----

  function Rd(w: Word): bv5 {
    Rv32.Field5(w, 7)
  }

  function Rs1(w: Word): bv5 {
    Rv32.Field5(w, 15)
  }

  function Rs2(w: Word): bv5 {
    Rv32.Field5(w, 20)
  }

  function F3(w: Word): Word {
    Rv32.Bits(w, 12, 7)
  }

  function F7(w: Word): Word {
    Rv32.Bits(w, 25, 0x7F)
  }

  lemma FunctBits(w: Word)
    ensures F3(w) <= 7 && Rv32.Funct3(w) as Word == F3(w) && F7(w) <= 0x7F && Rv32.Funct7(w) as Word == F7(w)
  {
  }

  lemma RJoin(w: Word)
    ensures RType(F7(w), Rs2(w) as Word, Rs1(w), F3(w), Rd(w), w & 0x7F) == w
  {
  }

  lemma IJoin(w: Word)
    ensures IType(Rv32.ImmI(w), Rs1(w), F3(w), Rd(w), w & 0x7F) == w
  {
    if w & 0x8000_0000 != 0 {
    } else {
    }
  }

  lemma CsrJoin(w: Word)
    ensures IType(Rv32.Bits(w, 20, 0xFFF), Rs1(w), F3(w), Rd(w), w & 0x7F) == w
  {
  }

  lemma SJoin(w: Word)
    ensures SType(Rv32.ImmS(w), Rs2(w), Rs1(w), F3(w), w & 0x7F) == w
  {
    if w & 0x8000_0000 != 0 {
    } else {
    }
  }

  lemma BJoin(w: Word)
    ensures BType(Rv32.ImmB(w), Rs2(w), Rs1(w), F3(w), w & 0x7F) == w
  {
    if w & 0x8000_0000 != 0 {
    } else {
    }
  }

  lemma UJoin(w: Word)
    ensures UType(Rv32.ImmU(w), Rd(w), w & 0x7F) == w
  {
  }

  lemma JJoin(w: Word)
    ensures JType(Rv32.ImmJ(w), Rd(w), w & 0x7F) == w
  {
  }

  lemma ImmFits(w: Word)
    ensures Rv32.FitsSigned(Rv32.ImmI(w), 0xFFFF_F800) && Rv32.FitsSigned(Rv32.ImmS(w), 0xFFFF_F800)
    ensures Rv32.FitsSigned(Rv32.ImmB(w), 0xFFFF_F000) && Rv32.ImmB(w) & 1 == 0
  {
  }

  lemma ImmFitsJ(w: Word)
    ensures Rv32.FitsSigned(Rv32.ImmJ(w), 0xFFF0_0000) && Rv32.ImmJ(w) & 1 == 0 && Rv32.ImmU(w) & 0xFFF == 0
  {
  }

  // ----- The instruction a word encodes -----

  ghost predicate Is(w: Word, i: Insn) {
    Valid(i) && Encode(i) == w
  }

  lemma UpperOf(x: Word)
    requires x & 0xFFF == 0
    ensures U(x) < MODULUS && U(x) % 4096 == 0
  {
    hide U, And;
    RangeU(x);
    Masks();
    Powers();
    MaskU(x, 0xFFF, 12);
    AndForm(x, 0xFFF);
    ZeroU();
  }

  lemma UpperInsn(w: Word) returns (i: Insn)
    requires w & 0x7F == 0x37 || w & 0x7F == 0x17
    ensures Is(w, i)
  {
    hide U, OfInt, UType, Rd, Rv32.ImmU;
    ImmFitsJ(w);
    UJoin(w);
    UpperOf(Rv32.ImmU(w));
    OfIntOfU(Rv32.ImmU(w));
    if w & 0x7F == 0x37 {
      i := Lui(Rd(w), U(Rv32.ImmU(w)));
    } else {
      i := Auipc(Rd(w), U(Rv32.ImmU(w)));
    }
  }

  lemma JalInsn(w: Word) returns (i: Insn)
    requires w & 0x7F == 0x6F
    ensures Is(w, i)
  {
    hide U, S, OfInt, JType, Rd, Rv32.ImmJ, Rv32.FitsSigned;
    ImmFitsJ(w);
    JJoin(w);
    FitsIff21(Rv32.ImmJ(w));
    EvenS(Rv32.ImmJ(w));
    OfIntOfU(Rv32.ImmJ(w));
    i := Jal(Rd(w), S(Rv32.ImmJ(w)));
  }

  lemma JalrInsn(w: Word) returns (i: Insn)
    requires w & 0x7F == 0x67 && F3(w) == 0
    ensures Is(w, i)
  {
    hide U, S, OfInt, IType, Rd, Rs1, F3, Rv32.ImmI, Rv32.FitsSigned;
    ImmFits(w);
    IJoin(w);
    FitsIff12(Rv32.ImmI(w));
    OfIntOfU(Rv32.ImmI(w));
    i := Jalr(Rd(w), Rs1(w), S(Rv32.ImmI(w)));
  }

  lemma CondOf(f: Word) returns (c: Cond)
    requires f <= 7 && f != 2 && f != 3
    ensures CondCode(c) == f
  {
    c := match f case 0 => EQ case 1 => NE case 4 => LT case 5 => GE case 6 => LTU case _ => GEU;
  }

  lemma BranchInsn(w: Word) returns (i: Insn)
    requires w & 0x7F == 0x63 && F3(w) != 2 && F3(w) != 3
    ensures Is(w, i)
  {
    hide U, S, OfInt, BType, Rd, Rs1, Rs2, F3, Rv32.ImmB, Rv32.FitsSigned, CondCode;
    FunctBits(w);
    ImmFits(w);
    BJoin(w);
    FitsIff13(Rv32.ImmB(w));
    EvenS(Rv32.ImmB(w));
    OfIntOfU(Rv32.ImmB(w));
    var c := CondOf(F3(w));
    i := Branch(c, Rs1(w), Rs2(w), S(Rv32.ImmB(w)));
  }

  lemma WidthOf(f: Word) returns (width: Width)
    requires f <= 7 && f != 3 && f != 6 && f != 7
    ensures WidthCode(width) == f
    ensures f <= 2 ==> width == B || width == H || width == W4
  {
    width := match f case 0 => B case 1 => H case 2 => W4 case 4 => BU case _ => HU;
  }

  lemma LoadInsn(w: Word) returns (i: Insn)
    requires w & 0x7F == 0x03 && F3(w) != 3 && F3(w) != 6 && F3(w) != 7
    ensures Is(w, i)
  {
    hide U, S, OfInt, IType, Rd, Rs1, F3, Rv32.ImmI, Rv32.FitsSigned, WidthCode;
    FunctBits(w);
    ImmFits(w);
    IJoin(w);
    FitsIff12(Rv32.ImmI(w));
    OfIntOfU(Rv32.ImmI(w));
    var width := WidthOf(F3(w));
    i := Load(width, Rd(w), Rs1(w), S(Rv32.ImmI(w)));
  }

  lemma StoreInsn(w: Word) returns (i: Insn)
    requires w & 0x7F == 0x23 && F3(w) <= 2
    ensures Is(w, i)
  {
    hide U, S, OfInt, SType, Rd, Rs1, Rs2, F3, Rv32.ImmS, Rv32.FitsSigned, WidthCode;
    ImmFits(w);
    SJoin(w);
    FitsIff12(Rv32.ImmS(w));
    OfIntOfU(Rv32.ImmS(w));
    var width := WidthOf(F3(w));
    i := Store(width, Rs1(w), Rs2(w), S(Rv32.ImmS(w)));
  }

  lemma FenceInsn(w: Word) returns (i: Insn)
    requires w & 0x7F == 0x0F
    ensures Is(w, i)
  {
    FenceJoin(w);
    i := Fence(w & 0xFFFF_FF80);
  }

  lemma FenceJoin(w: Word)
    requires w & 0x7F == 0x0F
    ensures (w & 0xFFFF_FF80) & 0x7F == 0 && (w & 0xFFFF_FF80) | 0x0F == w
  {
  }

  lemma OpOf(f3: Word, f7: Word) returns (op: IntOp)
    requires f3 <= 7 && (f7 == 0 || (f7 == 0x20 && (f3 == 0 || f3 == 5)))
    ensures Funct3Of(op) == f3 && Funct7Of(op) == f7 && (op == SUB <==> f7 == 0x20 && f3 == 0)
    ensures Shift(op) <==> f3 == 1 || f3 == 5
  {
    op := match f3 case 0 => if f7 == 0 then ADD else SUB case 1 => SLL case 2 => SLT case 3 => SLTU case 4 => XOR
      case 5 => if f7 == 0 then SRL else SRA case 6 => OR case _ => AND;
  }

  lemma OpInsn(w: Word) returns (i: Insn)
    requires w & 0x7F == 0x33 && (F7(w) == 0 || (F7(w) == 0x20 && (F3(w) == 0 || F3(w) == 5)))
    ensures Is(w, i)
  {
    hide RType, Rd, Rs1, Rs2, F3, F7, Funct3Of, Funct7Of;
    FunctBits(w);
    RJoin(w);
    var op := OpOf(F3(w), F7(w));
    i := Op(op, Rd(w), Rs1(w), Rs2(w));
  }

  lemma FiveU(x: Word)
    requires And(x, 0x1F) == x
    ensures U(x) < 32
  {
    hide U, And;
    Masks();
    Powers();
    MaskU(x, 0x1F, 5);
  }

  lemma Rs2Five(w: Word)
    ensures And(Rs2(w) as Word, 0x1F) == Rs2(w) as Word
  {
  }

  lemma ShiftInsn(w: Word) returns (i: Insn)
    requires w & 0x7F == 0x13 && (F3(w) == 1 || F3(w) == 5) && (F7(w) == 0 || (F7(w) == 0x20 && F3(w) == 5))
    ensures Is(w, i)
  {
    hide RType, Rd, Rs1, Rs2, F3, F7, Funct3Of, Funct7Of, U, OfInt, And;
    RJoin(w);
    Rs2Five(w);
    var op := OpOf(F3(w), F7(w));
    FiveU(Rs2(w) as Word);
    OfIntOfU(Rs2(w) as Word);
    i := OpImm(op, Rd(w), Rs1(w), U(Rs2(w) as Word));
  }

  lemma OpImmInsn(w: Word) returns (i: Insn)
    requires w & 0x7F == 0x13 && F3(w) != 1 && F3(w) != 5
    ensures Is(w, i)
  {
    hide U, S, OfInt, IType, Rd, Rs1, F3, Rv32.ImmI, Rv32.FitsSigned, Funct3Of, Funct7Of;
    FunctBits(w);
    ImmFits(w);
    IJoin(w);
    FitsIff12(Rv32.ImmI(w));
    OfIntOfU(Rv32.ImmI(w));
    var op := OpOf(F3(w), 0);
    i := OpImm(op, Rd(w), Rs1(w), S(Rv32.ImmI(w)));
  }

  lemma CsrOf(x: Word) returns (n: CsrName)
    requires x == 0x300 || x == 0x304 || x == 0x305 || x == 0x341 || x == 0x342 || x == 0x344
    ensures CsrNumber(n) == x
  {
    n := match x case 0x300 => Mstatus case 0x304 => Mie case 0x305 => Mtvec case 0x341 => Mepc case 0x342 => Mcause
      case _ => Mip;
  }

  lemma KindOf(f: Word) returns (k: CsrKind, imm: bool)
    requires f <= 7 && f != 0 && f != 4
    ensures f == KindCode(k) + if imm then 4 else 0
  {
    imm := f >= 4;
    k := match f case 1 => RW case 5 => RW case 2 => RS case 6 => RS case _ => RC;
  }

  lemma CsrInsnOf(w: Word) returns (i: Insn)
    requires w & 0x7F == 0x73 && F3(w) != 0 && F3(w) != 4
    requires var x := Rv32.Bits(w, 20, 0xFFF);
      x == 0x300 || x == 0x304 || x == 0x305 || x == 0x341 || x == 0x342 || x == 0x344
    ensures Is(w, i)
  {
    hide IType, Rd, Rs1, F3, Rv32.Bits, CsrNumber, KindCode;
    FunctBits(w);
    CsrJoin(w);
    var n := CsrOf(Rv32.Bits(w, 20, 0xFFF));
    var k, imm := KindOf(F3(w));
    if imm {
      i := CsrImm(k, Rd(w), n, Rs1(w));
    } else {
      i := CsrReg(k, Rd(w), n, Rs1(w));
    }
  }

  // ----- Words the decoder accepts -----

  lemma Back3(f: bv3, x: Word)
    requires f as Word == x
    ensures x == 0 <==> f == 0
    ensures x == 1 <==> f == 1
    ensures x == 2 <==> f == 2
    ensures x == 3 <==> f == 3
    ensures x == 4 <==> f == 4
    ensures x == 5 <==> f == 5
    ensures x == 6 <==> f == 6
    ensures x == 7 <==> f == 7
    ensures x <= 7 && (x <= 2 <==> x == 0 || x == 1 || x == 2)
  {
  }

  lemma Back7(f: bv7, x: Word)
    requires f as Word == x
    ensures (x == 0 <==> f == 0) && (x == 0x20 <==> f == 0x20)
  {
  }

  lemma LegalControl(w: Word)
    requires !Rv32.Decode(w).illegal
    ensures w & 0x7F == 0x67 ==> F3(w) == 0
    ensures w & 0x7F == 0x63 ==> F3(w) != 2 && F3(w) != 3
    ensures w & 0x7F == 0x03 ==> F3(w) != 3 && F3(w) != 6 && F3(w) != 7
    ensures w & 0x7F == 0x23 ==> F3(w) <= 2
  {
    hide F3, Rv32.Funct3, Rv32.Funct7, Rv32.Field5, Rv32.Bits;
    FunctBits(w);
    Back3(Rv32.Funct3(w), F3(w));
  }

  lemma LegalOp(w: Word)
    requires !Rv32.DecodeOp(w).illegal
    ensures F7(w) == 0 || (F7(w) == 0x20 && (F3(w) == 0 || F3(w) == 5))
  {
    hide F3, F7, Rv32.Funct3, Rv32.Funct7, Rv32.Field5, Rv32.Bits;
    FunctBits(w);
    Back3(Rv32.Funct3(w), F3(w));
    Back7(Rv32.Funct7(w), F7(w));
  }

  lemma LegalOpImm(w: Word)
    requires !Rv32.DecodeOpImm(w).illegal
    ensures F3(w) == 1 ==> F7(w) == 0
    ensures F3(w) == 5 ==> F7(w) == 0 || F7(w) == 0x20
  {
    hide F3, F7, Rv32.Funct3, Rv32.Funct7, Rv32.Field5, Rv32.Bits, Rv32.ImmI;
    FunctBits(w);
    Back3(Rv32.Funct3(w), F3(w));
    Back7(Rv32.Funct7(w), F7(w));
  }

  lemma Twelve(x: Word, a: bv12)
    requires x <= 0xFFF && x as bv12 == a
    ensures x == a as Word
  {
  }

  lemma TwelveBits(w: Word)
    ensures Rv32.Bits(w, 20, 0xFFF) <= 0xFFF
  {
  }

  lemma CsrAddress(w: Word)
    requires Rv32.CsrSupported(Rv32.Defaults(w).csrAddr)
    ensures var x := Rv32.Bits(w, 20, 0xFFF);
      x == 0x300 || x == 0x304 || x == 0x305 || x == 0x341 || x == 0x342 || x == 0x344
  {
    hide Rv32.Bits, Rv32.Field5, Rv32.Funct3;
    TwelveBits(w);
    Twelve(Rv32.Bits(w, 20, 0xFFF), Rv32.Defaults(w).csrAddr);
  }

  lemma TwoLow(f: bv3)
    ensures f & 3 == 0 <==> f == 0 || f == 4
  {
  }

  lemma LegalSystem(w: Word)
    requires !Rv32.DecodeSystem(w).illegal && w != 0x3020_0073
    ensures F3(w) != 0 && F3(w) != 4 && Rv32.CsrSupported(Rv32.Defaults(w).csrAddr)
  {
    hide F3, Rv32.Funct3, Rv32.Field5, Rv32.Bits, Rv32.CsrSupported;
    FunctBits(w);
    Back3(Rv32.Funct3(w), F3(w));
    TwoLow(Rv32.Funct3(w));
  }

  lemma LegalOpcode(w: Word)
    requires !Rv32.Decode(w).illegal
    ensures var o := w & 0x7F;
      o == 0x37 || o == 0x17 || o == 0x6F || o == 0x67 || o == 0x63 || o == 0x03 || o == 0x23 || o == 0x13 || o == 0x33
      || o == 0x0F || o == 0x73
  {
    hide Rv32.DecodeOp, Rv32.DecodeOpImm, Rv32.DecodeSystem, Rv32.Funct3, Rv32.Field5, Rv32.Bits;
  }

  // The instruction whose encoding an accepted word is
  lemma Disassemble(w: Word) returns (i: Insn)
    requires !Rv32.Decode(w).illegal
    ensures Is(w, i)
  {
    hide Is, F3, F7, Rv32.Decode, Rv32.DecodeOp, Rv32.DecodeOpImm, Rv32.DecodeSystem, Rv32.Defaults,
      Rv32.CsrSupported;
    LegalOpcode(w);
    LegalControl(w);
    DecodeClassOp(w);
    match w & 0x7F
    case 0x63 => i := BranchInsn(w);
    case 0x03 => i := LoadInsn(w);
    case 0x23 => i := StoreInsn(w);
    case 0x67 => i := JalrInsn(w);
    case 0x6F => i := JalInsn(w);
    case 0x0F => i := FenceInsn(w);
    case 0x33 => LegalOp(w); i := OpInsn(w);
    case 0x13 =>
      LegalOpImm(w);
      if F3(w) == 1 || F3(w) == 5 {
        i := ShiftInsn(w);
      } else {
        i := OpImmInsn(w);
      }
    case 0x73 => i := SystemInsn(w);
    case _ => i := UpperInsn(w);
  }

  lemma SystemInsn(w: Word) returns (i: Insn)
    requires w & 0x7F == 0x73 && !Rv32.DecodeSystem(w).illegal
    ensures Is(w, i)
  {
    hide F3, Rv32.DecodeSystem, Rv32.Defaults, Rv32.CsrSupported;
    if w == 0x3020_0073 {
      i := Mret;
    } else {
      LegalSystem(w);
      CsrAddress(w);
      i := CsrInsnOf(w);
    }
  }

  // A word that encodes no instruction traps as illegal and changes nothing else
  lemma {:induction false} UndefinedTraps(s: Arch)
    requires forall i: Insn :: Valid(i) ==> Encode(i) != Rv32.ReadWord(s.mem, s.pc)
    ensures Step(s) == Trap(s, if U(s.pc) % 4 != 0 then 4 else 3)
  {
    hide Exec, Encode, Valid, Trap, TakeTrap, U, Rv32.ReadWord, Rv32.Decode;
    var w := Rv32.ReadWord(s.mem, s.pc);
    if !Rv32.Decode(w).illegal {
      var i := Disassemble(w);
    }
    Aligned4(s.pc);
    if Runs(s) {
      ExecIllegal(s, w);
      TrapIs(s, 3);
    } else {
      ExecMisaligned(s, w);
      TrapIs(s, 4);
    }
  }
}
