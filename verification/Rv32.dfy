/** The combinational parts of rtl/cpu/rv32i_2stage_wb.v (immediates, decode, ALU, byte lanes, CSR
    and trap updates) and an RV32I machine built from them that runs one instruction at a time. */
module Rv32 {
  import Words

  type Word = Words.Word

  datatype AluOp = Add | Sub | Sll | Slt | Sltu | Xor | Srl | Sra | Or | And | Pass
  datatype WbSel = WbAlu | WbMem | WbPc4 | WbImm | WbCsr
  datatype CsrOp = CsrWrite | CsrSet | CsrClear

  const CAUSE_INSTR_BUS: Word := 1
  const CAUSE_DATA_BUS: Word := 2
  const CAUSE_ILLEGAL: Word := 3
  const CAUSE_MISALIGNED: Word := 4
  const MCAUSE_EXT_IRQ: Word := 0x8000_000B

  // ----- Immediates -----

  // width bits of x from bit lo upwards
  function Bits(x: Word, lo: bv5, mask: Word): Word {
    (x >> lo) & mask
  }

  function Clear1(x: Word): Word {
    x & 0xFFFF_FFFE
  }

  function Clear2(x: Word): Word {
    x & 0xFFFF_FFFC
  }

  function SignFill(insn: Word, low: Word): Word {
    if insn & 0x8000_0000 != 0 then low else 0
  }

  function ImmI(insn: Word): Word {
    SignFill(insn, 0xFFFF_F000) | Bits(insn, 20, 0xFFF)
  }

  function ImmS(insn: Word): Word {
    SignFill(insn, 0xFFFF_F000) | (Bits(insn, 25, 0x7F) << 5) | Bits(insn, 7, 0x1F)
  }

  function ImmB(insn: Word): Word {
    SignFill(insn, 0xFFFF_F000) | (Bits(insn, 7, 1) << 11) | (Bits(insn, 25, 0x3F) << 5) | (Bits(insn, 8, 0xF) << 1)
  }

  function ImmU(insn: Word): Word {
    insn & 0xFFFF_F000
  }

  function JoinJ(negative: bool, b19: Word, b11: Word, b10: Word): Word {
    (if negative then 0xFFF0_0000 else 0) | (b19 << 12) | (b11 << 11) | (b10 << 1)
  }

  function ImmJ(insn: Word): Word {
    JoinJ(insn & 0x8000_0000 != 0, Bits(insn, 12, 0xFF), Bits(insn, 20, 1), Bits(insn, 21, 0x3FF))
  }

  // ----- Decode -----

  datatype Control = Control(
    rs1: bv5, rs2: bv5, rd: bv5, funct3: bv3, imm: Word,
    alu: AluOp, aPc: bool, bImm: bool, regWrite: bool, wb: WbSel,
    memRead: bool, memWrite: bool, branch: bool, jal: bool, jalr: bool,
    csr: bool, csrOp: CsrOp, csrImm: bool, csrAddr: bv12, mret: bool, illegal: bool)

  function Field5(insn: Word, lo: bv5): bv5 {
    Bits(insn, lo, 0x1F) as bv5
  }

  function Funct3(insn: Word): bv3 {
    Bits(insn, 12, 7) as bv3
  }

  function Funct7(insn: Word): bv7 {
    Bits(insn, 25, 0x7F) as bv7
  }

  predicate CsrSupported(addr: bv12) {
    addr == 0x300 || addr == 0x304 || addr == 0x305 || addr == 0x341 || addr == 0x342 || addr == 0x344
  }

  function Defaults(insn: Word): Control {
    Control(Field5(insn, 15), Field5(insn, 20), Field5(insn, 7), Funct3(insn), 0,
            Add, false, false, false, WbAlu, false, false, false, false, false,
            false, CsrWrite, false, Bits(insn, 20, 0xFFF) as bv12, false, false)
  }

  function DecodeOpImm(insn: Word): Control {
    var c := Defaults(insn).(imm := ImmI(insn), bImm := true, regWrite := true);
    match c.funct3
    case 0 => c.(alu := Add)
    case 2 => c.(alu := Slt)
    case 3 => c.(alu := Sltu)
    case 4 => c.(alu := Xor)
    case 6 => c.(alu := Or)
    case 7 => c.(alu := And)
    case 1 => c.(alu := Sll, illegal := Funct7(insn) != 0)
    case _ => c.(alu := if insn & 0x4000_0000 != 0 then Sra else Srl,
                 illegal := Funct7(insn) != 0 && Funct7(insn) != 0x20)
  }

  function DecodeOp(insn: Word): Control {
    var c := Defaults(insn).(regWrite := true);
    match (Funct7(insn), c.funct3)
    case (0, 0) => c.(alu := Add)
    case (0x20, 0) => c.(alu := Sub)
    case (0, 1) => c.(alu := Sll)
    case (0, 2) => c.(alu := Slt)
    case (0, 3) => c.(alu := Sltu)
    case (0, 4) => c.(alu := Xor)
    case (0, 5) => c.(alu := Srl)
    case (0x20, 5) => c.(alu := Sra)
    case (0, 6) => c.(alu := Or)
    case (0, 7) => c.(alu := And)
    case _ => c.(illegal := true)
  }

  function DecodeSystem(insn: Word): Control {
    var c := Defaults(insn);
    if insn == 0x3020_0073 then c.(mret := true)
    else if c.funct3 != 0 && CsrSupported(c.csrAddr) then
      var d := c.(csr := true, csrImm := c.funct3 & 4 != 0, regWrite := true, wb := WbCsr);
      match c.funct3 & 3
      case 1 => d.(csrOp := CsrWrite)
      case 2 => d.(csrOp := CsrSet)
      case 3 => d.(csrOp := CsrClear)
      case _ => d.(illegal := true)
    else c.(illegal := true)
  }

  function Decode(insn: Word): Control {
    var c := Defaults(insn);
    match insn & 0x7F
    case 0x37 => c.(imm := ImmU(insn), alu := Pass, bImm := true, regWrite := true, wb := WbImm)
    case 0x17 => c.(imm := ImmU(insn), aPc := true, bImm := true, regWrite := true)
    case 0x6F => c.(imm := ImmJ(insn), jal := true, regWrite := true, wb := WbPc4)
    case 0x67 => c.(imm := ImmI(insn), jalr := c.funct3 == 0, regWrite := c.funct3 == 0, wb := WbPc4,
                    illegal := c.funct3 != 0)
    case 0x63 => c.(imm := ImmB(insn), branch := true, illegal := c.funct3 == 2 || c.funct3 == 3)
    case 0x03 => c.(imm := ImmI(insn), bImm := true, regWrite := true, wb := WbMem, memRead := true,
                    illegal := c.funct3 == 3 || c.funct3 == 6 || c.funct3 == 7)
    case 0x23 => c.(imm := ImmS(insn), bImm := true, memWrite := true,
                    illegal := c.funct3 != 0 && c.funct3 != 1 && c.funct3 != 2)
    case 0x13 => DecodeOpImm(insn)
    case 0x33 => DecodeOp(insn)
    case 0x0F => c
    case 0x73 => DecodeSystem(insn)
    case _ => c.(illegal := true)
  }

  // An instruction belongs to at most one of the classes that touch memory, the PC or a CSR
  lemma DecodeClasses(insn: Word)
    ensures var d := Decode(insn);
      && !(d.memRead && d.memWrite)
      && (d.memRead || d.memWrite ==> !d.branch && !d.jal && !d.jalr && !d.mret && !d.csr)
      && (d.branch || d.jal || d.jalr || d.mret ==> !d.csr)
      && (d.memRead ==> d.regWrite) && (d.memWrite || d.mret ==> !d.regWrite)
  {
  }

  // ----- ALU and branches -----

  predicate SignedLess(a: Word, b: Word) {
    Words.Less(Words.Flip(a), Words.Flip(b))
  }

  function ShiftRightSigned(a: Word, n: Word): Word
    requires n < 32
  {
    Words.RightSigned(a, n)
  }

  function Alu(op: AluOp, a: Word, b: Word): Word {
    match op
    case Add => a + b
    case Sub => a - b
    case Sll => a << (b & 0x1F)
    case Slt => if SignedLess(a, b) then 1 else 0
    case Sltu => if a < b then 1 else 0
    case Xor => a ^ b
    case Srl => a >> (b & 0x1F)
    case Sra => ShiftRightSigned(a, b & 0x1F)
    case Or => a | b
    case And => a & b
    case Pass => b
  }

  function AluOut(d: Control, pc: Word, a: Word, b: Word): Word {
    Alu(d.alu, if d.aPc then pc else a, if d.bImm then d.imm else b)
  }

  predicate BranchCondition(funct3: bv3, a: Word, b: Word) {
    match funct3
    case 0 => a == b
    case 1 => a != b
    case 4 => SignedLess(a, b)
    case 5 => !SignedLess(a, b)
    case 6 => a < b
    case 7 => a >= b
    case _ => false
  }

  predicate JumpTaken(d: Control, a: Word, b: Word) {
    d.jal || d.jalr || (d.branch && BranchCondition(d.funct3, a, b))
  }

  function PcPlus4(pc: Word): Word {
    pc + 4
  }

  function JumpTarget(d: Control, pc: Word, a: Word): Word {
    if d.jalr then Clear1(Words.Plus(a, d.imm)) else Words.Plus(pc, d.imm)
  }

  // ----- Loads and stores -----

  predicate LoadMisaligned(d: Control, adr: Word) {
    d.memRead && (((d.funct3 == 1 || d.funct3 == 5) && adr & 1 != 0) || (d.funct3 == 2 && adr & 3 != 0))
  }

  predicate StoreMisaligned(d: Control, adr: Word) {
    d.memWrite && ((d.funct3 == 1 && adr & 1 != 0) || (d.funct3 == 2 && adr & 3 != 0))
  }

  function SelectedByte(word: Word, offset: Word): Word {
    match offset
    case 0 => word & 0xFF
    case 1 => (word >> 8) & 0xFF
    case 2 => (word >> 16) & 0xFF
    case _ => (word >> 24) & 0xFF
  }

  function SelectedHalf(word: Word, offset: Word): Word {
    if offset & 2 != 0 then (word >> 16) & 0xFFFF else word & 0xFFFF
  }

  function LoadExtend(word: Word, offset: Word, funct3: bv3): Word {
    var byte, half := SelectedByte(word, offset), SelectedHalf(word, offset);
    match funct3
    case 0 => if byte & 0x80 != 0 then byte | 0xFFFF_FF00 else byte
    case 1 => if half & 0x8000 != 0 then half | 0xFFFF_0000 else half
    case 2 => word
    case 4 => byte
    case 5 => half
    case _ => word
  }

  function StoreSel(offset: Word, funct3: bv3): bv4 {
    match funct3
    case 0 => (match offset case 0 => 1 case 1 => 2 case 2 => 4 case _ => 8)
    case 1 => if offset & 2 != 0 then 0xC else 3
    case _ => 0xF
  }

  function StoreData(data: Word, offset: Word, funct3: bv3): Word {
    var b := data & 0xFF;
    match funct3
    case 0 => (b | (b << 8) | (b << 16) | (b << 24)) << (8 * (offset & 3))
    case 1 => if offset & 2 != 0 then (data & 0xFFFF) << 16 else data & 0xFFFF
    case _ => data
  }

  // The bytes a byte-lane select enables
  function LaneMask(sel: bv4): Word {
    (if sel & 1 != 0 then 0xFF else 0) | (if sel & 2 != 0 then 0xFF00 else 0)
    | (if sel & 4 != 0 then 0xFF_0000 else 0) | (if sel & 8 != 0 then 0xFF00_0000 else 0)
  }

  function MergeLanes(old_: Word, data: Word, sel: bv4): Word {
    (old_ & !LaneMask(sel)) | (data & LaneMask(sel))
  }

  // A word-organised memory; unwritten words read as zero
  type Memory = map<nat, Word>

  function WordIndex(adr: Word): nat {
    Words.U(adr >> 2)
  }

  function ReadWord(m: Memory, adr: Word): Word {
    if WordIndex(adr) in m then m[WordIndex(adr)] else 0
  }

  function WriteWord(m: Memory, adr: Word, data: Word, sel: bv4): Memory {
    m[WordIndex(adr) := MergeLanes(ReadWord(m, adr), data, sel)]
  }

  // Sign extension of the low 8 or 16 bits, independently of the byte lanes
  function SignExtended(v: Word, funct3: bv3): Word {
    match funct3
    case 0 => if v & 0x80 != 0 then v | 0xFFFF_FF00 else v & 0xFF
    case 1 => if v & 0x8000 != 0 then v | 0xFFFF_0000 else v & 0xFFFF
    case _ => v
  }

  predicate StoreWidth(funct3: bv3, offset: Word) {
    offset <= 3 && (funct3 == 0 || (funct3 == 1 && offset & 1 == 0) || (funct3 == 2 && offset == 0))
  }

  // Does the byte at lane k belong to the access?
  predicate Covers(funct3: bv3, offset: Word, k: Word) {
    funct3 == 2 || (funct3 == 1 && k & 2 == offset & 2) || (funct3 == 0 && k == offset)
  }

  lemma SignForms(v: Word)
    ensures SignExtended(v, 0) == if v & 0x80 != 0 then (v & 0xFF) | 0xFFFF_FF00 else v & 0xFF
    ensures SignExtended(v, 1) == if v & 0x8000 != 0 then (v & 0xFFFF) | 0xFFFF_0000 else v & 0xFFFF
  {
  }

  function Merged(w: Word, v: Word, offset: Word, funct3: bv3): Word {
    MergeLanes(w, StoreData(v, offset, funct3), StoreSel(offset, funct3))
  }

  lemma StoredByte(w: Word, v: Word, offset: Word)
    requires offset <= 3
    ensures SelectedByte(Merged(w, v, offset, 0), offset) == v & 0xFF
  {
    if offset == 0 {
    } else if offset == 1 {
    } else if offset == 2 {
    } else {
      assert offset == 3;
    }
  }

  lemma StoredHalf(w: Word, v: Word, offset: Word)
    requires offset <= 3 && offset & 1 == 0
    ensures SelectedHalf(Merged(w, v, offset, 1), offset) == v & 0xFFFF
  {
    if offset == 0 {
    } else {
      assert offset == 2;
    }
  }

  lemma StoredWord(w: Word, v: Word)
    ensures Merged(w, v, 0, 2) == v
  {
  }

  lemma {:induction false} StoreThenLoadWord(w: Word, v: Word, offset: Word, funct3: bv3)
    requires StoreWidth(funct3, offset)
    ensures LoadExtend(Merged(w, v, offset, funct3), offset, funct3) == SignExtended(v, funct3)
    ensures funct3 == 0 ==> LoadExtend(Merged(w, v, offset, funct3), offset, 4) == v & 0xFF
    ensures funct3 == 1 ==> LoadExtend(Merged(w, v, offset, funct3), offset, 5) == v & 0xFFFF
  {
    hide Merged, SelectedByte, SelectedHalf, SignExtended;
    if funct3 == 0 {
      StoredByte(w, v, offset);
      SignForms(v);
      assert (v & 0xFF) & 0x80 == v & 0x80;
    } else if funct3 == 1 {
      StoredHalf(w, v, offset);
      SignForms(v);
      assert (v & 0xFFFF) & 0x8000 == v & 0x8000;
    } else {
      StoredWord(w, v);
      SignWord(v);
    }
  }

  lemma SignWord(v: Word)
    ensures SignExtended(v, 2) == v
  {
  }

  lemma {:induction false} StoreKeepsOtherBytes(w: Word, v: Word, offset: Word, funct3: bv3, k: Word)
    requires StoreWidth(funct3, offset) && k <= 3 && !Covers(funct3, offset, k)
    ensures SelectedByte(MergeLanes(w, StoreData(v, offset, funct3), StoreSel(offset, funct3)), k) == SelectedByte(w, k)
  {
    if offset == 0 {
    } else if offset == 1 {
    } else if offset == 2 {
    } else {
      assert offset == 3;
    }
  }

  // A load reads back what a store to the same address put there: sign-extended by LB and LH,
  // zero-extended by LBU and LHU
  lemma {:induction false} StoreThenLoad(m: Memory, adr: Word, v: Word, funct3: bv3)
    requires StoreWidth(funct3, adr & 3)
    ensures var n := WriteWord(m, adr, StoreData(v, adr & 3, funct3), StoreSel(adr & 3, funct3));
      && LoadExtend(ReadWord(n, adr), adr & 3, funct3) == SignExtended(v, funct3)
      && (funct3 == 0 ==> LoadExtend(ReadWord(n, adr), adr & 3, 4) == v & 0xFF)
      && (funct3 == 1 ==> LoadExtend(ReadWord(n, adr), adr & 3, 5) == v & 0xFFFF)
  {
    hide StoreData, StoreSel, LoadExtend, SignExtended, MergeLanes, StoreWidth, WordIndex;
    StoreThenLoadWord(ReadWord(m, adr), v, adr & 3, funct3);
  }

  // ----- Immediates against the instruction formats -----

  function EncodeI(imm: Word): Word {
    imm << 20
  }

  function EncodeS(imm: Word): Word {
    ((imm & 0xFE0) << 20) | ((imm & 0x1F) << 7)
  }

  function EncodeB(imm: Word): Word {
    ((imm & 0x1000) << 19) | ((imm & 0x7E0) << 20) | ((imm & 0x1E) << 7) | ((imm & 0x800) >> 4)
  }

  function EncodeJ(imm: Word): Word {
    ((imm & 0x10_0000) << 11) | ((imm & 0x7FE) << 20) | ((imm & 0x800) << 9) | (imm & 0xF_F000)
  }

  // imm is sign-extended from the bit below the mask
  predicate FitsSigned(imm: Word, mask: Word) {
    imm & mask == 0 || imm & mask == mask
  }

  // Decoding an immediate field gives back the offset the format scattered, whatever the other
  // fields hold
  lemma ImmIRoundTrip(imm: Word, rest: Word)
    requires FitsSigned(imm, 0xFFFF_F800)
    ensures ImmI(EncodeI(imm) | (rest & 0xF_FFFF)) == imm
  {
  }

  lemma ImmSRoundTrip(imm: Word, rest: Word)
    requires FitsSigned(imm, 0xFFFF_F800)
    ensures ImmS(EncodeS(imm) | (rest & 0x1FF_F07F)) == imm
  {
  }

  lemma ImmBRoundTrip(imm: Word, rest: Word)
    requires FitsSigned(imm, 0xFFFF_F000) && imm & 1 == 0
    ensures ImmB(EncodeB(imm) | (rest & 0x1FF_F07F)) == imm
  {
  }

  lemma ImmJRoundTrip(imm: Word, rest: Word)
    requires FitsSigned(imm, 0xFFF0_0000) && imm & 1 == 0
    ensures ImmJ(EncodeJ(imm) | (rest & 0xFFF)) == imm
  {
    hide EncodeJ, Bits, FitsSigned, JoinJ;
    FieldsJ(imm, rest);
    JoinedJ(imm);
  }

  lemma FieldsJ(imm: Word, rest: Word)
    ensures var w := EncodeJ(imm) | (rest & 0xFFF);
      && (w & 0x8000_0000 != 0 <==> imm & 0x10_0000 != 0) && Bits(w, 12, 0xFF) == Bits(imm, 12, 0xFF)
      && Bits(w, 20, 1) == Bits(imm, 11, 1) && Bits(w, 21, 0x3FF) == Bits(imm, 1, 0x3FF)
  {
  }

  lemma JoinedJ(imm: Word)
    requires FitsSigned(imm, 0xFFF0_0000) && imm & 1 == 0
    ensures JoinJ(imm & 0x10_0000 != 0, Bits(imm, 12, 0xFF), Bits(imm, 11, 1), Bits(imm, 1, 0x3FF)) == imm
  {
  }

  // ----- CSRs and traps -----

  datatype Csrs = Csrs(mstatus: Word, mie: Word, mtvec: Word, mepc: Word, mcause: Word)

  function CsrRead(c: Csrs, addr: bv12, irq: bool): Word {
    match addr
    case 0x300 => c.mstatus
    case 0x304 => c.mie
    case 0x305 => c.mtvec
    case 0x341 => c.mepc
    case 0x342 => c.mcause
    case 0x344 => if irq then 0x800 else 0
    case _ => 0
  }

  function CsrSource(d: Control, a: Word): Word {
    if d.csrImm then d.rs1 as Word else a
  }

  function CsrApply(op: CsrOp, old_: Word, src: Word): Word {
    match op
    case CsrWrite => src
    case CsrSet => old_ | src
    case CsrClear => old_ & !src
  }

  predicate CsrWriteRequested(d: Control, a: Word) {
    d.csr && (d.csrOp == CsrWrite || CsrSource(d, a) != 0)
  }

  function CsrAfter(c: Csrs, d: Control, a: Word, irq: bool): Csrs {
    var v := CsrApply(d.csrOp, CsrRead(c, d.csrAddr, irq), CsrSource(d, a));
    if !CsrWriteRequested(d, a) then c
    else match d.csrAddr
    case 0x300 => c.(mstatus := v)
    case 0x304 => c.(mie := v)
    case 0x305 => c.(mtvec := Clear2(v))
    case 0x341 => c.(mepc := Clear1(v))
    case 0x342 => c.(mcause := v)
    case _ => c
  }

  // Bit 3 is the interrupt enable, bit 7 its saved value
  function TrapCsrs(c: Csrs, cause: Word, pc: Word): Csrs {
    c.(mepc := Clear1(pc), mcause := cause,
       mstatus := (c.mstatus & 0xFFFF_FF77) | (if c.mstatus & 8 != 0 then 0x80 else 0))
  }

  function MretCsrs(c: Csrs): Csrs {
    c.(mstatus := (c.mstatus & 0xFFFF_FF77) | 0x80 | (if c.mstatus & 0x80 != 0 then 8 else 0))
  }

  function TrapVector(c: Csrs): Word {
    Clear2(c.mtvec)
  }

  // ----- Register file -----

  type Regs = r: seq<Word> | |r| == 32 witness seq(32, i => 0)

  function Index(r: bv5): (i: nat)
    ensures i < 32
  {
    r as nat
  }

  lemma IndexInjective(r: bv5, q: bv5)
    requires Index(r) == Index(q)
    ensures r == q
  {
    assert (r as nat) as bv5 == r && (q as nat) as bv5 == q;
  }

  function RegRead(x: Regs, r: bv5): Word {
    if r == 0 then 0 else x[Index(r)]
  }

  function RegWrite(x: Regs, enable: bool, r: bv5, v: Word): Regs {
    (if enable && r != 0 then x[Index(r) := v] else x)[0 := 0]
  }

  lemma RegReadWrite(x: Regs, enable: bool, r: bv5, v: Word, q: bv5)
    ensures RegRead(RegWrite(x, enable, r, v), q) == if enable && r != 0 && q == r then v else RegRead(x, q)
  {
    hide Index;
    if q != 0 {
      if Index(q) == Index(r) {
        IndexInjective(q, r);
      }
      if Index(q) == 0 {
        IndexZero(q);
      }
    }
  }

  lemma IndexZero(q: bv5)
    requires Index(q) == 0
    ensures q == 0
  {
    assert Index(0) == 0;
    IndexInjective(q, 0);
  }
}
