/** The RV32I, CSR and MRET instructions the core executes: their encodings in the formats of the RISC-V
    unprivileged manual, and what each does to the state, in integers. Nothing here uses the decoder, the ALU or
    the other combinational functions of the core. */
module Isa {
  import opened Words
  import opened Machine
  import Rv32

  datatype IntOp = ADD | SUB | SLL | SLT | SLTU | XOR | SRL | SRA | OR | AND
  datatype Cond = EQ | NE | LT | GE | LTU | GEU
  datatype Width = B | H | W4 | BU | HU
  datatype CsrKind = RW | RS | RC
  datatype CsrName = Mstatus | Mie | Mtvec | Mepc | Mcause | Mip

  datatype Insn =
    | Lui(rd: bv5, upper: nat)
    | Auipc(rd: bv5, upper: nat)
    | Jal(rd: bv5, offset: int)
    | Jalr(rd: bv5, rs1: bv5, offset: int)
    | Branch(cond: Cond, rs1: bv5, rs2: bv5, offset: int)
    | Load(width: Width, rd: bv5, rs1: bv5, offset: int)
    | Store(width: Width, rs1: bv5, rs2: bv5, offset: int)
    | OpImm(op: IntOp, rd: bv5, rs1: bv5, imm: int)
    | Op(op: IntOp, rd: bv5, rs1: bv5, rs2: bv5)
    | Fence(rest: Word)
    | CsrReg(kind: CsrKind, rd: bv5, csr: CsrName, rs1: bv5)
    | CsrImm(kind: CsrKind, rd: bv5, csr: CsrName, uimm: bv5)
    | Mret

  predicate Shift(op: IntOp) {
    op == SLL || op == SRL || op == SRA
  }

  predicate Fits(n: int, bound: int) {
    -bound <= n < bound
  }

  // The operands the formats can hold
  predicate Valid(i: Insn) {
    match i
    case Lui(_, upper) => upper < MODULUS && upper % 4096 == 0
    case Auipc(_, upper) => upper < MODULUS && upper % 4096 == 0
    case Jal(_, offset) => Fits(offset, 0x10_0000) && offset % 2 == 0
    case Jalr(_, _, offset) => Fits(offset, 2048)
    case Branch(_, _, _, offset) => Fits(offset, 4096) && offset % 2 == 0
    case Load(_, _, _, offset) => Fits(offset, 2048)
    case Store(width, _, _, offset) => (width == B || width == H || width == W4) && Fits(offset, 2048)
    case OpImm(op, _, _, imm) => op != SUB && if Shift(op) then 0 <= imm < 32 else Fits(imm, 2048)
    case Fence(rest) => rest & 0x7F == 0
    case _ => true
  }

  // ----- Encoding -----

  function Field(r: bv5, lo: bv5): Word {
    (r as Word) << lo
  }

  function RType(funct7: Word, second: Word, rs1: bv5, funct3: Word, rd: bv5, opcode: Word): Word {
    (funct7 << 25) | (second << 20) | Field(rs1, 15) | (funct3 << 12) | Field(rd, 7) | opcode
  }

  function IType(imm: Word, rs1: bv5, funct3: Word, rd: bv5, opcode: Word): Word {
    (imm << 20) | Field(rs1, 15) | (funct3 << 12) | Field(rd, 7) | opcode
  }

  // imm[11:5] rs2 rs1 funct3 imm[4:0] opcode
  function SType(imm: Word, rs2: bv5, rs1: bv5, funct3: Word, opcode: Word): Word {
    (((imm >> 5) & 0x7F) << 25) | Field(rs2, 20) | Field(rs1, 15) | (funct3 << 12) | ((imm & 0x1F) << 7) | opcode
  }

  // imm[12] imm[10:5] rs2 rs1 funct3 imm[4:1] imm[11] opcode
  function BType(imm: Word, rs2: bv5, rs1: bv5, funct3: Word, opcode: Word): Word {
    (((imm >> 12) & 1) << 31) | (((imm >> 5) & 0x3F) << 25) | Field(rs2, 20) | Field(rs1, 15) | (funct3 << 12)
    | (((imm >> 1) & 0xF) << 8) | (((imm >> 11) & 1) << 7) | opcode
  }

  function UType(imm: Word, rd: bv5, opcode: Word): Word {
    imm | Field(rd, 7) | opcode
  }

  // imm[20] imm[10:1] imm[11] imm[19:12] rd opcode
  function JType(imm: Word, rd: bv5, opcode: Word): Word {
    (((imm >> 20) & 1) << 31) | (((imm >> 1) & 0x3FF) << 21) | (((imm >> 11) & 1) << 20)
    | (((imm >> 12) & 0xFF) << 12) | Field(rd, 7) | opcode
  }

  function Funct3Of(op: IntOp): Word {
    match op
    case ADD => 0
    case SUB => 0
    case SLL => 1
    case SLT => 2
    case SLTU => 3
    case XOR => 4
    case SRL => 5
    case SRA => 5
    case OR => 6
    case AND => 7
  }

  function Funct7Of(op: IntOp): Word {
    if op == SUB || op == SRA then 0x20 else 0
  }

  function CondCode(c: Cond): Word {
    match c
    case EQ => 0
    case NE => 1
    case LT => 4
    case GE => 5
    case LTU => 6
    case GEU => 7
  }

  function WidthCode(w: Width): Word {
    match w
    case B => 0
    case H => 1
    case W4 => 2
    case BU => 4
    case HU => 5
  }

  function KindCode(k: CsrKind): Word {
    match k
    case RW => 1
    case RS => 2
    case RC => 3
  }

  function CsrNumber(c: CsrName): Word {
    match c
    case Mstatus => 0x300
    case Mie => 0x304
    case Mtvec => 0x305
    case Mepc => 0x341
    case Mcause => 0x342
    case Mip => 0x344
  }

  function Encode(i: Insn): Word {
    match i
    case Lui(rd, upper) => UType(OfInt(upper), rd, 0x37)
    case Auipc(rd, upper) => UType(OfInt(upper), rd, 0x17)
    case Jal(rd, offset) => JType(OfInt(offset), rd, 0x6F)
    case Jalr(rd, rs1, offset) => IType(OfInt(offset), rs1, 0, rd, 0x67)
    case Branch(cond, rs1, rs2, offset) => BType(OfInt(offset), rs2, rs1, CondCode(cond), 0x63)
    case Load(width, rd, rs1, offset) => IType(OfInt(offset), rs1, WidthCode(width), rd, 0x03)
    case Store(width, rs1, rs2, offset) => SType(OfInt(offset), rs2, rs1, WidthCode(width), 0x23)
    case OpImm(op, rd, rs1, imm) =>
      if Shift(op) then RType(Funct7Of(op), OfInt(imm), rs1, Funct3Of(op), rd, 0x13)
      else IType(OfInt(imm), rs1, Funct3Of(op), rd, 0x13)
    case Op(op, rd, rs1, rs2) => RType(Funct7Of(op), rs2 as Word, rs1, Funct3Of(op), rd, 0x33)
    case Fence(rest) => rest | 0x0F
    case CsrReg(kind, rd, csr, rs1) => IType(CsrNumber(csr), rs1, KindCode(kind), rd, 0x73)
    case CsrImm(kind, rd, csr, uimm) => IType(CsrNumber(csr), uimm, KindCode(kind) + 4, rd, 0x73)
    case Mret => 0x3020_0073
  }

  // ----- Meaning -----

  function Reg(s: Arch, r: bv5): Word {
    s.regs[r as nat]
  }

  function SetReg(s: Arch, r: bv5, v: Word): Arch {
    if r == 0 then s else s.(regs := s.regs[r as nat := v])
  }

  function Go(s: Arch, n: int): Arch {
    s.(pc := OfInt(n))
  }

  function Next(s: Arch): Arch {
    Go(s, U(s.pc) + 4)
  }

  function RoundDown(n: int, m: nat): int
    requires m > 0
  {
    n - n % m
  }

  const MIE: Word := 8
  const MPIE: Word := 0x80

  function WithBit(x: Word, mask: Word, on: bool): Word {
    if on then x | mask else x & !mask
  }

  // On a trap the interrupt enable moves to its saved bit and is cleared; on a return it comes back
  function Disabled(m: Word): Word {
    WithBit(WithBit(m, MPIE, m & MIE != 0), MIE, false)
  }

  function Restored(m: Word): Word {
    WithBit(WithBit(m, MIE, m & MPIE != 0), MPIE, true)
  }

  function TrapCsrs(c: Rv32.Csrs, cause: Word, pc: Word): Rv32.Csrs {
    c.(mepc := OfInt(RoundDown(U(pc), 2)), mcause := cause, mstatus := Disabled(c.mstatus))
  }

  // The handler's address is a multiple of 4
  function Trap(s: Arch, cause: Word): Arch {
    s.(pc := OfInt(RoundDown(U(s.csrs.mtvec), 4)), csrs := TrapCsrs(s.csrs, cause, s.pc),
       faultPc := s.pc, faultCause := cause)
  }

  function Return(s: Arch): Arch {
    s.(pc := s.csrs.mepc, csrs := s.csrs.(mstatus := Restored(s.csrs.mstatus)))
  }

  function Compute(op: IntOp, a: Word, b: Word): Word {
    match op
    case ADD => OfInt(U(a) + U(b))
    case SUB => OfInt(U(a) - U(b))
    case SLL => OfInt(U(a) * Power(U(b) % 32))
    case SLT => if S(a) < S(b) then 1 else 0
    case SLTU => if U(a) < U(b) then 1 else 0
    case XOR => a ^ b
    case SRL => OfInt(U(a) / Power(U(b) % 32))
    case SRA => OfInt(S(a) / Power(U(b) % 32))
    case OR => a | b
    case AND => a & b
  }

  predicate Holds(c: Cond, a: Word, b: Word) {
    match c
    case EQ => U(a) == U(b)
    case NE => U(a) != U(b)
    case LT => S(a) < S(b)
    case GE => S(a) >= S(b)
    case LTU => U(a) < U(b)
    case GEU => U(a) >= U(b)
  }

  // Byte k of a word's number, low byte first
  function Digit(x: nat, k: nat): int {
    x / Power(8 * k) % 256
  }

  function PutDigit(x: nat, k: nat, b: int): int {
    x + (b - Digit(x, k)) * Power(8 * k)
  }

  function WordAt(m: Rv32.Memory, i: nat): nat {
    if i in m then U(m[i]) else 0
  }

  function Byte(m: Rv32.Memory, n: nat): int {
    Digit(WordAt(m, n / 4), n % 4)
  }

  function PutByte(m: Rv32.Memory, n: nat, b: int): Rv32.Memory {
    m[n / 4 := OfInt(PutDigit(WordAt(m, n / 4), n % 4, b))]
  }

  function Size(w: Width): nat {
    match w
    case B => 1
    case BU => 1
    case W4 => 4
    case _ => 2
  }

  // The number in the n bytes from a
  function LittleEndian(m: Rv32.Memory, a: nat, n: nat): int
    decreases n
  {
    if n == 0 then 0 else Byte(m, a) + 256 * LittleEndian(m, a + 1, n - 1)
  }

  function Signed(n: int, m: nat): int {
    if 2 * n >= m then n - m else n
  }

  function Loaded(m: Rv32.Memory, w: Width, a: nat): int {
    var n := LittleEndian(m, a, Size(w));
    match w
    case B => Signed(n, 256)
    case H => Signed(n, 65536)
    case _ => n
  }

  function Stored(m: Rv32.Memory, a: nat, n: nat, v: nat): Rv32.Memory
    decreases n
  {
    if n == 0 then m else Stored(PutByte(m, a, v % 256), a + 1, n - 1, v / 256)
  }

  function CsrValue(c: Rv32.Csrs, n: CsrName): Word {
    match n
    case Mstatus => c.mstatus
    case Mie => c.mie
    case Mtvec => c.mtvec
    case Mepc => c.mepc
    case Mcause => c.mcause
    case Mip => 0
  }

  function SetCsr(c: Rv32.Csrs, n: CsrName, v: Word): Rv32.Csrs {
    match n
    case Mstatus => c.(mstatus := v)
    case Mie => c.(mie := v)
    case Mtvec => c.(mtvec := OfInt(RoundDown(U(v), 4)))
    case Mepc => c.(mepc := OfInt(RoundDown(U(v), 2)))
    case Mcause => c.(mcause := v)
    case Mip => c
  }

  function Updated(k: CsrKind, old_: Word, source: Word): Word {
    match k
    case RW => source
    case RS => old_ | source
    case RC => old_ & !source
  }

  // Set and clear with an all-zero source leave the register alone
  function Access(s: Arch, k: CsrKind, rd: bv5, n: CsrName, source: Word): Arch {
    var old_ := CsrValue(s.csrs, n);
    var csrs := if k != RW && source == 0 then s.csrs else SetCsr(s.csrs, n, Updated(k, old_, source));
    SetReg(s.(csrs := csrs), rd, old_)
  }

  // What instruction i does when it is executed in state s
  function Meaning(i: Insn, s: Arch): Arch {
    if U(s.pc) % 4 != 0 then Trap(s, 4)
    else match i
      case Lui(rd, upper) => Next(SetReg(s, rd, OfInt(upper)))
      case Auipc(rd, upper) => Next(SetReg(s, rd, OfInt(U(s.pc) + upper)))
      case Jal(rd, offset) => Go(SetReg(s, rd, OfInt(U(s.pc) + 4)), U(s.pc) + offset)
      case Jalr(rd, rs1, offset) =>
        Go(SetReg(s, rd, OfInt(U(s.pc) + 4)), RoundDown(U(Reg(s, rs1)) + offset, 2))
      case Branch(cond, rs1, rs2, offset) =>
        if Holds(cond, Reg(s, rs1), Reg(s, rs2)) then Go(s, U(s.pc) + offset) else Next(s)
      case Load(width, rd, rs1, offset) =>
        var a := (U(Reg(s, rs1)) + offset) % MODULUS;
        if a % Size(width) != 0 then Trap(s, 4) else Next(SetReg(s, rd, OfInt(Loaded(s.mem, width, a))))
      case Store(width, rs1, rs2, offset) =>
        var a := (U(Reg(s, rs1)) + offset) % MODULUS;
        if a % Size(width) != 0 then Trap(s, 4)
        else Next(s.(mem := Stored(s.mem, a, Size(width), U(Reg(s, rs2)))))
      case OpImm(op, rd, rs1, imm) => Next(SetReg(s, rd, Compute(op, Reg(s, rs1), OfInt(imm))))
      case Op(op, rd, rs1, rs2) => Next(SetReg(s, rd, Compute(op, Reg(s, rs1), Reg(s, rs2))))
      case Fence(_) => Next(s)
      case CsrReg(kind, rd, csr, rs1) => Next(Access(s, kind, rd, csr, Reg(s, rs1)))
      case CsrImm(kind, rd, csr, uimm) => Next(Access(s, kind, rd, csr, uimm as Word))
      case Mret => Return(s)
  }
}
