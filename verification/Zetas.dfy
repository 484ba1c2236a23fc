/** The twiddle factors: the table of kyber/ref/ntt.c and the powers of 17 it holds
    (section 4.3 of FIPS 203: zeta = 17, a 256th root of unity modulo q). */
module Zetas {
  import opened ModQ

  datatype Octet = Octet(a0: int, a1: int, a2: int, a3: int, a4: int, a5: int, a6: int, a7: int) {
    function At(j: int): int {
      if j < 4 then (if j < 2 then (if j < 1 then a0 else a1) else if j < 3 then a2 else a3)
      else if j < 6 then (if j < 5 then a4 else a5) else if j < 7 then a6 else a7
    }
  }

  // zetas[8 * i .. 8 * i + 8]
  function ZetaRow(i: int): Octet {
    match i
    case  0 => Octet(-1044,  -758,  -359, -1517,  1493,  1422,   287,   202)
    case  1 => Octet( -171,   622,  1577,   182,   962, -1202, -1474,  1468)
    case  2 => Octet(  573, -1325,   264,   383,  -829,  1458, -1602,  -130)
    case  3 => Octet( -681,  1017,   732,   608, -1542,   411,  -205, -1571)
    case  4 => Octet( 1223,   652,  -552,  1015, -1293,  1491,  -282, -1544)
    case  5 => Octet(  516,    -8,  -320,  -666, -1618, -1162,   126,  1469)
    case  6 => Octet( -853,   -90,  -271,   830,   107, -1421,  -247,  -951)
    case  7 => Octet( -398,   961, -1508,  -725,   448, -1065,   677, -1275)
    case  8 => Octet(-1103,   430,   555,   843, -1251,   871,  1550,   105)
    case  9 => Octet(  422,   587,   177,  -235,  -291,  -460,  1574,  1653)
    case 10 => Octet( -246,   778,  1159,  -147,  -777,  1483,  -602,  1119)
    case 11 => Octet(-1590,   644,  -872,   349,   418,   329,  -156,   -75)
    case 12 => Octet(  817,  1097,   603,   610,  1322, -1285, -1465,   384)
    case 13 => Octet(-1215,  -136,  1218, -1335,  -874,   220, -1187, -1659)
    case 14 => Octet(-1185, -1530, -1278,   794, -1510,  -854,  -870,   478)
    case _  => Octet( -108,  -308,   996,   991,   958, -1460,  1522,  1628)
  }

  function Zeta(k: int): int {
    ZetaRow(k / 8).At(k % 8)
  }

  function Pow17(e: nat): int {
    if e == 0 then 1 else 17 * Pow17(e - 1)
  }

  function Two(j: nat): (r: nat)
    ensures r > 0
  {
    if j == 0 then 1 else 2 * Two(j - 1)
  }

  // Reversal of the w low bits of k
  function BitRev(k: nat, w: nat): nat {
    if w == 0 then 0 else (if k % 2 == 1 then Two(w - 1) else 0) + BitRev(k / 2, w - 1)
  }

  lemma {:induction false} TwoMonotone(i: nat, j: nat)
    requires i <= j
    ensures Two(i) <= Two(j)
  {
    if i < j {
      TwoMonotone(i, j - 1);
    }
  }

  lemma {:induction false} TwoProduct(a: nat, b: nat)
    ensures Two(a) * Two(b) == Two(a + b)
  {
    hide Two;
    TwoFirst();
    if a > 0 {
      TwoProduct(a - 1, b);
      TwoNext(a - 1);
      TwoNext(a - 1 + b);
      DoubleProduct(Two(a - 1), Two(b));
    }
  }

  lemma TwoFirst()
    ensures Two(0) == 1
  {
  }

  lemma TwoNext(a: nat)
    ensures Two(a + 1) == 2 * Two(a)
  {
  }

  lemma DoubleProduct(x: int, y: int)
    ensures (2 * x) * y == 2 * (x * y)
  {
  }

  lemma {:induction false} BitRevWiden(k: nat, w: nat)
    requires k < Two(w)
    ensures BitRev(k, w + 1) == 2 * BitRev(k, w)
  {
    if w > 0 {
      BitRevWiden(k / 2, w - 1);
    }
  }

  lemma {:induction false} BitRevZero(w: nat)
    ensures BitRev(0, w) == 0
  {
    if w > 0 {
      BitRevZero(w - 1);
    }
  }

  // Adding bit j above the top one adds the weight of the reversed bit
  lemma {:induction false} BitRevTop(j: nat, i: nat, w: nat)
    requires i < Two(j) && j < w
    ensures BitRev(Two(j) + i, w) == Two(w - 1 - j) + BitRev(i, w)
  {
    if j == 0 {
      BitRevZero(w - 1);
    } else {
      var t := Two(j - 1);
      assert (2 * t + i) / 2 == t + i / 2 && (2 * t + i) % 2 == i % 2;
      BitRevTop(j - 1, i / 2, w - 1);
    }
  }

  const BITS: nat := Two(3) - 1            // X^256 + 1 has 2^7 quadratic factors modulo q

  // The root that node k of the transform splits with
  function Root(k: nat): int {
    Pow17(BitRev(k, BITS))
  }

  // Node k works in Z_q[X]/(X^n - Gamma(k)); its children split X^n - Root(k)^2
  function Gamma(k: nat): int {
    if k <= 1 then -1 else if k % 2 == 0 then Root(k / 2) else -Root(k / 2)
  }

  lemma {:induction false} PowAdd(a: nat, b: nat)
    ensures Pow17(a + b) == Pow17(a) * Pow17(b)
  {
    if a > 0 {
      PowAdd(a - 1, b);
      var x, y := Pow17(a - 1), Pow17(b);
      assert 17 * (x * y) == (17 * x) * y;
    }
  }

  // 17^(2^i) modulo q
  lemma SquareStep(e: nat, x: int, y: int)
    requires Cong(Pow17(e), x) && Cong(x * x, y)
    ensures Cong(Pow17(2 * e), y)
  {
    PowAdd(e, e);
    CongMul(Pow17(e), x, Pow17(e), x);
    CongTrans(Pow17(2 * e), x * x, y);
  }

  lemma PowersOfTwo()
    ensures Cong(Pow17(1), 17) && Cong(Pow17(2), 289) && Cong(Pow17(4), 296)
    ensures Cong(Pow17(8), 1062) && Cong(Pow17(16), 2642) && Cong(Pow17(32), 2580)
    ensures Cong(Pow17(64), 1729) && Cong(Pow17(128), -1)
  {
    assert Pow17(1) == 17;
    SquareStep(1, 17, 289);
    SquareStep(2, 289, 296);
    SquareStep(4, 296, 1062);
    SquareStep(8, 1062, 2642);
    SquareStep(16, 2642, 2580);
    SquareStep(32, 2580, 1729);
    SquareStep(64, 1729, -1);
  }

  lemma PowMinusOne()
    ensures Cong(Pow17(128), -1)
  {
    PowersOfTwo();
  }

  lemma PowSquared(b: nat, h: nat, odd: bool)
    requires 2 * b == h + (if odd then 128 else 0)
    ensures Cong(Pow17(b) * Pow17(b), if odd then -Pow17(h) else Pow17(h))
  {
    PowAdd(b, b);
    if odd {
      PowAdd(h, 128);
      PowMinusOne();
      CongMul(Pow17(h), Pow17(h), Pow17(128), -1);
    }
  }

  // The children of node k split with the square roots of Gamma(k)
  lemma RootSquared(k: nat)
    requires 1 <= k < 128
    ensures Cong(Root(k) * Root(k), Gamma(k))
  {
    hide Cong, BitRev, Root;
    RootForm(k);
    RootForm(k / 2);
    BitRevDouble(k);
    BitRevZero(7);
    PowSquared(BitRev(k, 7), BitRev(k / 2, 7), k % 2 == 1);
  }

  lemma BitRevDouble(k: nat)
    requires k < 128
    ensures 2 * BitRev(k, 7) == (if k % 2 == 1 then 128 else 0) + BitRev(k / 2, 7)
    ensures k == 1 ==> BitRev(k, 7) == 64
  {
    BitRevWiden(k / 2, 6);
    BitRevZero(6);
  }

  // The node of the same layer, counted from the other end
  function Mirror(k: nat): (m: nat)
    requires 1 <= k < 128
    ensures 1 <= m < 128
  {
    if k >= 64 then 191 - k else if k >= 32 then 95 - k else if k >= 16 then 47 - k
    else if k >= 8 then 23 - k else if k >= 4 then 11 - k else if k >= 2 then 5 - k else 1
  }

  lemma MirrorHalf(k: nat)
    requires 2 <= k < 128
    ensures Mirror(k) / 2 == Mirror(k / 2) && Mirror(k) % 2 == 1 - k % 2
  {
  }

  lemma {:induction false} MirrorSum(k: nat, w: nat)
    requires 1 <= k < Two(w) && w <= 7 && k < 128
    ensures BitRev(k, w) + BitRev(Mirror(k), w) == Two(w)
  {
    if k == 1 {
      BitRevZero(w - 1);
    } else {
      MirrorHalf(k);
      MirrorSum(k / 2, w - 1);
    }
  }

  // The inverse transform multiplies by the root of the mirrored node, which is -1 / Root(k)
  lemma RootMirror(k: nat)
    requires 1 <= k < 128
    ensures Cong(Root(k) * Root(Mirror(k)), -1)
  {
    hide Cong, BitRev, Mirror, Root;
    RootForm(k);
    RootForm(Mirror(k));
    MirrorSum(k, 7);
    PowersOfTwo();
    PowAdd(BitRev(k, 7), BitRev(Mirror(k), 7));
  }

  // ----- The table holds 2^16 * Root(k) -----

  // Adding the bit 2^j to the index multiplies by 17^(2^(6-j))
  predicate Link(x: int, c: int, y: int) {
    (y - c * x) % Q == 0
  }

  predicate RowLink(r: Octet, c: int, s: Octet) {
    && Link(r.a0, c, s.a0) && Link(r.a1, c, s.a1) && Link(r.a2, c, s.a2) && Link(r.a3, c, s.a3)
    && Link(r.a4, c, s.a4) && Link(r.a5, c, s.a5) && Link(r.a6, c, s.a6) && Link(r.a7, c, s.a7)
  }

  lemma RowsLinked4(i: nat)
    requires 4 <= i < 8
    ensures RowLink(ZetaRow(i - 4), 289, ZetaRow(i))
  {
  }

  lemma RowsLinked2(i: nat)
    requires 2 <= i < 4
    ensures RowLink(ZetaRow(i - 2), 296, ZetaRow(i))
  {
  }

  lemma RowsLinked1()
    ensures RowLink(ZetaRow(0), 1062, ZetaRow(1))
  {
  }

  lemma RowsLinked8(i: nat)
    requires 8 <= i < 16
    ensures RowLink(ZetaRow(i - 8), 17, ZetaRow(i))
  {
  }

  lemma LinkAt(r: Octet, c: int, s: Octet, j: int)
    requires RowLink(r, c, s) && 0 <= j < 8
    ensures Link(r.At(j), c, s.At(j))
  {
  }

  // Index k with top bit j: the index below it and 17^(2^(6-j))
  function TopBit(k: nat): (r: (nat, int))
    requires 1 <= k < 128
    ensures r.0 < 7 && Two(r.0) <= k < 2 * Two(r.0) && k - Two(r.0) < Two(r.0)
    ensures Cong(Pow17(Two(6 - r.0)), r.1)
  {
    PowersOfTwo();
    if k >= 64 then (6, 17) else if k >= 32 then (5, 289) else if k >= 16 then (4, 296)
    else if k >= 8 then (3, 1062) else if k >= 4 then (2, 2642) else if k >= 2 then (1, 2580)
    else (0, 1729)
  }

  lemma TableLinkedLow(k: nat)
    requires 1 <= k < 8
    ensures var (j, c) := TopBit(k); Link(Zeta(k - Two(j)), c, Zeta(k))
  {
    assert Two(0) == 1 && Two(1) == 2 && Two(2) == 4;
  }

  lemma RowsLinked(i: nat, d: nat, c: int)
    requires 1 <= i < 16 && (d, c) in {(8, 17), (4, 289), (2, 296), (1, 1062)} && d <= i < 2 * d
    ensures RowLink(ZetaRow(i - d), c, ZetaRow(i))
  {
    hide *;
    if i >= 8 {
      RowsLinked8(i);
    } else if i >= 4 {
      RowsLinked4(i);
    } else if i >= 2 {
      RowsLinked2(i);
    } else {
      RowsLinked1();
    }
  }

  lemma TableLinked(k: nat)
    requires 1 <= k < 128
    ensures var (j, c) := TopBit(k); Link(Zeta(k - Two(j)), c, Zeta(k))
  {
    var (j, c) := TopBit(k);
    if j >= 3 {
      var d := Two(j - 3);
      assert 8 * d == Two(j) && (d, c) in {(8, 17), (4, 289), (2, 296), (1, 1062)};
      ZetaRowsLinked(k, d, c);
    } else {
      TableLinkedLow(k);
    }
  }

  lemma ZetaRowsLinked(k: nat, d: nat, c: int)
    requires k < 128 && (d, c) in {(8, 17), (4, 289), (2, 296), (1, 1062)} && 8 * d <= k < 16 * d
    ensures Link(Zeta(k - 8 * d), c, Zeta(k))
  {
    hide *;
    var i := k / 8;
    RowsLinked(i, d, c);
    LinkAt(ZetaRow(i - d), c, ZetaRow(i), k % 8);
    ZetaAt(k, i);
    ZetaAt(k - 8 * d, i - d);
  }

  lemma ZetaAt(k: nat, i: nat)
    requires 8 * i <= k < 8 * i + 8
    ensures Zeta(k) == ZetaRow(i).At(k - 8 * i) && k % 8 == k - 8 * i
  {
  }

  lemma LinkedPower(zi: int, zk: int, c: int, x: int, y: int)
    requires Link(zi, c, zk) && Cong(x, c) && Cong(zi, y * 65536)
    ensures Cong(zk, (x * y) * 65536)
  {
    CongSym(x, c);
    CongMul(c, x, zi, y * 65536);
    CongTrans(zk, c * zi, x * (y * 65536));
    assert x * (y * 65536) == (x * y) * 65536;
  }

  lemma RootForm(k: nat)
    ensures Root(k) == Pow17(BitRev(k, 7))
  {
    assert BITS == 7;
  }

  lemma RootTop(j: nat, i: nat)
    requires j < 7 && i < Two(j)
    ensures Root(Two(j) + i) == Pow17(Two(6 - j)) * Root(i)
  {
    hide Root, BitRev, Pow17;
    RootForm(i);
    RootForm(Two(j) + i);
    BitRevTop(j, i, 7);
    PowAdd(Two(6 - j), BitRev(i, 7));
  }

  lemma RootZero()
    ensures Root(0) == 1
  {
    BitRevZero(7);
  }

  lemma {:induction false} TableIsRoots(k: nat)
    requires k < 128
    ensures Cong(Zeta(k), Root(k) * 65536)
  {
    if k == 0 {
      RootZero();
      assert Cong(-1044, 65536);
    } else {
      var (j, c) := TopBit(k);
      var i := k - Two(j);
      TableIsRoots(i);
      RootTop(j, i);
      TableLinked(k);
      LinkedPower(Zeta(i), Zeta(k), c, Pow17(Two(6 - j)), Root(i));
    }
  }

  lemma ZetaBound(k: nat)
    requires k < 128
    ensures -1659 <= Zeta(k) <= 1659
  {
  }
}
