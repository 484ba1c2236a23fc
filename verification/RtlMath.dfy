/** The leaf arithmetic of rtl/kyber/kyber_pqc_math.v and kyber_twiddle_rom.v: multiplication by
    constants with shifts and adds at the widths of the wires, the Montgomery and the Barrett
    units built from it, and the butterfly they form. The Barrett unit rounds down, so its range
    is [0, q] where the C function's is centred. */
module RtlMath {
  import opened ModQ
  import opened Zetas
  import opened NttImpl

  // Two's complement value of the low 20 and the low 32 bits
  function I20(x: int): (r: int)
    ensures -0x8_0000 <= x < 0x8_0000 ==> r == x
  {
    (x + 0x8_0000) % 0x10_0000 - 0x8_0000
  }

  function I32(x: int): (r: int)
    ensures Fits32(r)
    ensures Fits32(x) ==> r == x
  {
    (x + 0x8000_0000) % 0x1_0000_0000 - 0x8000_0000
  }

  // ----- Shift-add multipliers -----

  // kyber_mul_qinv_pipe: eight-bit sum of the shifted low byte, {sum, din[7:0]}
  function MulQinv(din: int): (r: nat)
    ensures r < 65536
  {
    var lo := din % 256;
    var sum := ((din / 256) % 256 + lo + 2 * lo % 256 + 16 * lo % 256 + 32 * lo % 256 + 64 * lo % 256
                + 128 * lo % 256) % 256;
    256 * sum + lo
  }

  // It multiplies by q^-1 modulo 2^16
  lemma {:induction false} MulQinvIs(din: int)
    ensures I16(MulQinv(din)) == MontFactor(din)
  {
    var lo, hi := din % 256, din / 256;
    assert din == 256 * hi + lo;
    var total := hi % 256 + lo + 2 * lo % 256 + 16 * lo % 256 + 32 * lo % 256 + 64 * lo % 256 + 128 * lo % 256;
    MulQinvSum(hi, lo, total);
    var k := (hi + 243 * lo - total % 256) / 256;
    assert MulQinv(din) == 256 * (hi + 243 * lo - 256 * k) + lo;
    assert MulQinv(din) == din + 62208 * lo - 65536 * k;
    var a := I16(din);
    var ka := I16Quotient(din);
    assert a * QINV == din * QINV + 65536 * (ka * QINV);
    assert din * QINV == din + 62208 * din - 65536 * din;
    assert 62208 * din == 62208 * lo + 65536 * (243 * hi);
    I16Shift(MulQinv(din), a * QINV, -k - ka * QINV + din - 243 * hi);
  }

  lemma MulQinvSum(hi: int, lo: int, total: int)
    requires 0 <= lo < 256
    requires total == hi % 256 + lo + 2 * lo % 256 + 16 * lo % 256 + 32 * lo % 256 + 64 * lo % 256 + 128 * lo % 256
    ensures (hi + 243 * lo - total % 256) % 256 == 0
  {
    LowByte(hi);
    LowByte(2 * lo);
    LowByte(16 * lo);
    LowByte(32 * lo);
    LowByte(64 * lo);
    LowByte(128 * lo);
    LowByte(total);
    Multiple256(hi + 243 * lo - total % 256,
                hi / 256 + 2 * lo / 256 + 16 * lo / 256 + 32 * lo / 256 + 64 * lo / 256 + 128 * lo / 256 + total / 256);
  }

  lemma LowByte(x: int)
    ensures x % 256 == x - 256 * (x / 256)
  {
  }

  lemma Multiple256(x: int, k: int)
    requires x == 256 * k
    ensures x % 256 == 0
  {
  }

  lemma I16Shift(x: int, y: int, k: int)
    requires x == y + 65536 * k
    ensures I16(x) == I16(y)
  {
  }

  // kyber_mul_q_pipe: the sign-extended twenty-bit sum above the low byte
  function MulQ(din: nat): (r: int)
    requires din < 65536
  {
    var s := I16(din);
    256 * I20(8 * s + 4 * s + s + s / 256) + din % 256
  }

  lemma MulQIs(din: nat)
    requires din < 65536
    ensures MulQ(din) == I16(din) * Q
  {
    var s := I16(din);
    assert s % 256 == din % 256;
  }

  // ----- Montgomery unit -----

  // q - p1 in 32 bits, upper half
  function MontDiff(din: int): (r: int)
    ensures Fits32(r)
  {
    I32(din - MulQ(MulQinv(din)))
  }

  function Mont(din: int): (r: int)
    ensures Fits16(r)
  {
    MontDiff(din) / 65536
  }

  // The unit computes montgomery_reduce, on every 32-bit input
  lemma {:induction false} MontIsReference(din: int)
    ensures Mont(din) == MontgomeryReduce(din)
  {
    hide MulQinv, MulQ, MontFactor, Cong;
    MulQinvIs(din);
    MulQIs(MulQinv(din));
    UpperHalf(din - MontFactor(din) * Q);
  }

  lemma UpperHalf(x: int)
    ensures I32(x) / 65536 == I16(x / 65536)
  {
    var h, l := x / 65536, x % 65536;
    var k := (x + 0x8000_0000) / 0x1_0000_0000;
    assert I32(x) == x - 0x1_0000_0000 * k == 65536 * (h - 65536 * k) + l;
    assert I32(x) / 65536 == h - 65536 * k;
    I16Shift(h - 65536 * k, h, -k);
  }

  // ----- Barrett unit -----

  // kyber_mul_barrett_v_pipe: three partial sums, then their sum, both 32 bits
  function BarrettSum0(a: int): int {
    I32(16384 * a + 2048 * a + 1024 * a + 512 * a)
  }

  function BarrettSum1(a: int): int {
    I32(128 * a + 32 * a + 16 * a + 8 * a)
  }

  function BarrettSum2(a: int): int {
    I32(4 * a + 2 * a + a)
  }

  function BarrettSum(s0: int, s1: int, s2: int): int {
    I32(s0 + s1 + s2)
  }

  // sum[31:26], sign extended to 16 bits; on the wire as an unsigned pattern
  function BarrettQuotient(sum: int): (t: nat)
    ensures t < 65536
  {
    (sum / 0x400_0000) % 65536
  }

  function BarrettDiff(a: int, p1: int): (r: int)
    ensures Fits16(r)
  {
    I16(a - I16(p1))
  }

  function FloorBarrett(a: int): (r: int) {
    BarrettDiff(a, MulQ(BarrettQuotient(BarrettSum(BarrettSum0(a), BarrettSum1(a), BarrettSum2(a)))))
  }

  lemma BarrettSumIs(a: int)
    requires Fits16(a)
    ensures BarrettSum(BarrettSum0(a), BarrettSum1(a), BarrettSum2(a)) == BARRETT_V * a
  {
  }

  lemma BarrettQuotientIs(a: int, k: int, m: int)
    requires Fits16(a) && a == Q * k + m && 0 <= m < Q
    ensures var t := (BARRETT_V * a) / 0x400_0000;
      -11 <= t <= 9 && t == if k < 0 && m == 0 then k - 1 else k
  {
    assert -10 <= k <= 9;
    assert BARRETT_V * a == 0x400_0000 * k + (447 * k + BARRETT_V * m);
  }

  // No rounding constant: the result is the canonical residue, except that a negative multiple of
  // q gives q itself
  lemma {:induction false} FloorBarrettIs(a: int)
    requires Fits16(a)
    ensures FloorBarrett(a) == if a < 0 && a % Q == 0 then Q else a % Q
  {
    hide BarrettSum, BarrettSum0, BarrettSum1, BarrettSum2, MulQ;
    BarrettSumIs(a);
    BarrettQuotientIs(a, a / Q, a % Q);
    var t := (BARRETT_V * a) / 0x400_0000;
    QuotientWire(t);
    BarrettSubtract(a, t);
  }

  // The quotient survives its trip over the 16-bit wire
  lemma QuotientWire(t: int)
    requires -11 <= t <= 9
    ensures MulQ(t % 65536) == t * Q
  {
    hide MulQ;
    MulQIs(t % 65536);
    I16Shift(t % 65536, t, -(t / 65536));
  }

  lemma BarrettSubtract(a: int, t: int)
    requires 0 <= a - t * Q <= Q
    ensures BarrettDiff(a, t * Q) == a - t * Q
  {
    I16Shift(a - I16(t * Q), a - t * Q, -I16Quotient(t * Q));
  }

  lemma FloorBarrettRange(a: int)
    requires Fits16(a)
    ensures 0 <= FloorBarrett(a) <= Q && Cong(FloorBarrett(a), a)
  {
    hide FloorBarrett;
    FloorBarrettIs(a);
    CongIntro(FloorBarrett(a), a, if a < 0 && a % Q == 0 then 1 - a / Q else -(a / Q));
  }

  // ----- Twiddle ROM -----

  // The words at 8 * i .. 8 * i + 8
  function RomRow(i: int): Octet {
    match i
    case  0 => Octet(2285, 2571, 2970, 1812, 1493, 1422,  287,  202)
    case  1 => Octet(3158,  622, 1577,  182,  962, 2127, 1855, 1468)
    case  2 => Octet( 573, 2004,  264,  383, 2500, 1458, 1727, 3199)
    case  3 => Octet(2648, 1017,  732,  608, 1787,  411, 3124, 1758)
    case  4 => Octet(1223,  652, 2777, 1015, 2036, 1491, 3047, 1785)
    case  5 => Octet( 516, 3321, 3009, 2663, 1711, 2167,  126, 1469)
    case  6 => Octet(2476, 3239, 3058,  830,  107, 1908, 3082, 2378)
    case  7 => Octet(2931,  961, 1821, 2604,  448, 2264,  677, 2054)
    case  8 => Octet(2226,  430,  555,  843, 2078,  871, 1550,  105)
    case  9 => Octet( 422,  587,  177, 3094, 3038, 2869, 1574, 1653)
    case 10 => Octet(3083,  778, 1159, 3182, 2552, 1483, 2727, 1119)
    case 11 => Octet(1739,  644, 2457,  349,  418,  329, 3173, 3254)
    case 12 => Octet( 817, 1097,  603,  610, 1322, 2044, 1864,  384)
    case 13 => Octet(2114, 3193, 1218, 1994, 2455,  220, 2142, 1670)
    case 14 => Octet(2144, 1799, 2051,  794, 1819, 2475, 2459,  478)
    case _  => Octet(3221, 3021,  996,  991,  958, 1869, 1522, 1628)
  }

  function Rom(k: int): int {
    RomRow(k / 8).At(k % 8)
  }

  // The ROM holds the non-negative representatives of the C table
  predicate RowLifts(r: Octet, z: Octet) {
    && r.a0 == z.a0 % Q && r.a1 == z.a1 % Q && r.a2 == z.a2 % Q && r.a3 == z.a3 % Q
    && r.a4 == z.a4 % Q && r.a5 == z.a5 % Q && r.a6 == z.a6 % Q && r.a7 == z.a7 % Q
  }

  lemma RowsLift(i: nat)
    requires i < 16
    ensures RowLifts(RomRow(i), ZetaRow(i))
  {
  }

  lemma LiftAt(r: Octet, z: Octet, j: int)
    requires RowLifts(r, z) && 0 <= j < 8
    ensures r.At(j) == z.At(j) % Q
  {
  }

  lemma RomIsTable(k: nat)
    requires k < 128
    ensures Rom(k) == Zeta(k) % Q && 0 <= Rom(k) < Q && Cong(Rom(k), Zeta(k))
  {
    hide RomRow, ZetaRow, RowLifts;
    RowsLift(k / 8);
    LiftAt(RomRow(k / 8), ZetaRow(k / 8), k % 8);
    CongIntro(Rom(k), Zeta(k), -(Zeta(k) / Q));
  }

  // ----- The butterfly as a function -----

  // mode: false forward (Cooley-Tukey), true inverse (Gentleman-Sande)
  datatype BfIn = BfIn(mode: bool, a: int, b: int, zeta: int)

  function Multiplicand(i: BfIn): int {
    if i.mode then I16(i.b - i.a) else i.b
  }

  function Product(i: BfIn): int {
    Multiplicand(i) * i.zeta
  }

  function RawA(i: BfIn): int {
    if i.mode then I16(i.a + i.b) else I16(i.a + Mont(Product(i)))
  }

  function RawB(i: BfIn): int {
    if i.mode then Mont(Product(i)) else I16(i.a - Mont(Product(i)))
  }

  function OutA(i: BfIn): int {
    FloorBarrett(RawA(i))
  }

  function OutB(i: BfIn): int {
    FloorBarrett(RawB(i))
  }

  predicate Wide(x: int) {
    -Q <= x <= Q
  }

  // A Montgomery product with a ROM word is a product with the root it stands for
  lemma {:induction false} RomProduct(k: nat, x: int)
    requires k < 128 && -2 * Q <= x <= 2 * Q
    ensures -Q < Mont(x * Rom(k)) < Q && Cong(Mont(x * Rom(k)), Root(k) * x)
  {
    hide Rom, Zeta, Root, Mont, Cong, MontgomeryReduce;
    RomIsTable(k);
    ProductBound(x, Rom(k), 2 * Q, Q);
    MontIsReference(x * Rom(k));
    var t, y := Mont(x * Rom(k)), Root(k);
    TableIsRoots(k);
    CongTrans(Rom(k), Zeta(k), y * 65536);
    CongRefl(x);
    CongMul(x, x, Rom(k), y * 65536);
    assert x * (y * 65536) == (y * x) * 65536;
    CongTrans(t * 65536, x * Rom(k), (y * x) * 65536);
    CongCancelMont(t, y * x);
  }

  lemma {:induction false} ForwardButterfly(k: nat, a: int, b: int)
    requires k < 128 && Wide(a) && Wide(b)
    ensures var i := BfIn(false, a, b, Rom(k));
      && 0 <= OutA(i) <= Q && 0 <= OutB(i) <= Q
      && Cong(OutA(i), a + Root(k) * b) && Cong(OutB(i), a + -Root(k) * b)
  {
    hide Rom, Root, Mont, Cong, FloorBarrett;
    RomProduct(k, b);
    var t := Mont(b * Rom(k));
    FloorBarrettRange(a + t);
    FloorBarrettRange(a - t);
    CongRefl(a);
    CongAdd(a, a, t, Root(k) * b);
    assert a - Root(k) * b == a + -Root(k) * b;
    CongTrans(FloorBarrett(a + t), a + t, a + Root(k) * b);
    CongTrans(FloorBarrett(a - t), a - t, a - Root(k) * b);
  }

  lemma {:induction false} InverseButterfly(k: nat, a: int, b: int)
    requires k < 128 && Wide(a) && Wide(b)
    ensures var i := BfIn(true, a, b, Rom(k));
      && 0 <= OutA(i) <= Q && 0 <= OutB(i) <= Q
      && Cong(OutA(i), a + b) && Cong(OutB(i), Root(k) * (b - a))
  {
    hide Rom, Root, Mont, Cong, FloorBarrett;
    RomProduct(k, b - a);
    var t := Mont((b - a) * Rom(k));
    FloorBarrettRange(a + b);
    FloorBarrettRange(t);
    CongTrans(FloorBarrett(t), t, Root(k) * (b - a));
  }
}
