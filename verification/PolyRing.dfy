/** The polynomial operations of kyber/ref/poly.c that surround the transform, and the law the
    reference implementation is built on: transform, multiply pairwise, transform back is
    multiplication in Z_q[X]/(X^256 + 1), with every Montgomery factor cancelled. */
module PolyRing {
  import opened ModQ
  import opened Ring
  import opened Zetas
  import opened NttSpec
  import opened NttBlocks
  import opened NttImpl
  import opened InvNttImpl

  // ----- poly_reduce -----

  function Reduce(s: Poly): (r: Poly)
    ensures |r| == |s|
  {
    seq(|s|, i requires 0 <= i < |s| => Centred(s[i]))
  }

  // The canonical representative in -1664 .. 1664
  lemma ReduceOk(s: Poly)
    ensures Bounded(Reduce(s), 1664) && CongSeq(Reduce(s), s)
  {
  }

  lemma ReduceCong(s: Poly, t: Poly)
    requires CongSeq(s, t)
    ensures Reduce(s) == Reduce(t)
  {
    hide Centred;
    forall i | 0 <= i < |s| ensures Reduce(s)[i] == Reduce(t)[i] {
      CentredCong(s[i], t[i]);
    }
  }

  method PolyReduce(r: array<int>)
    requires AllFit16(r[..])
    modifies r
    ensures r[..] == Reduce(old(r[..]))
  {
    hide BarrettReduce, Centred;
    ghost var s := r[..];
    var i := 0;
    while i < r.Length
      invariant 0 <= i <= r.Length
      invariant forall p :: i <= p < r.Length ==> r[p] == s[p]
      invariant forall p :: 0 <= p < i ==> r[p] == Centred(s[p])
    {
      BarrettIsCentred(r[i]);
      r[i] := BarrettReduce(r[i]);
      i := i + 1;
    }
  }

  // ----- poly_ntt, poly_invntt_tomont -----

  lemma {:induction false} NttCOk(s: Poly, b: int)
    requires |s| == 256 && AllFit16(s) && Bounded(s, b) && b <= 9464
    ensures |s| == Two(BITS + 1)
    ensures CongSeq(CtLayers(s, BITS), Ntt(s, BITS, 1)) && Bounded(CtLayers(s, BITS), b + 7 * (Q - 1))
  {
    hide CtLayers, CongSeq, AllFit16, Bounded, Blocks, Ntt, NttAll;
    CtLayersOk(s, BITS, b);
    TopNode();
    TwoZero();
    NttAllOne(s, BITS, 1);
  }

  lemma TwoZero()
    ensures Two(BITS - BITS) == 1
  {
  }

  lemma NttAllOne(s: Poly, l: nat, k: nat)
    requires Blocks(s, l, k, 1) && |s| == Two(l + 1)
    ensures NttAll(s, l, k, 1) == Ntt(s, l, k)
  {
    hide Blocks, Two, Ntt;
    NttAllUnfold(s, l, k, 1);
    assert s[..Two(l + 1)] == s && s[Two(l + 1)..] == [];
  }

  // What poly_ntt computes: the centred representatives of the transform
  ghost function PolyNttSpec(s: Poly): (r: Poly)
    requires |s| == 256
    ensures |r| == 256
  {
    TopNode();
    Reduce(Ntt(s, BITS, 1))
  }

  lemma SmallFits(s: Poly, b: int)
    requires Bounded(s, b) && b < 32768
    ensures AllFit16(s)
  {
  }

  method PolyNtt(r: array<int>, ghost b: int)
    requires r.Length == 256 && Bounded(r[..], b) && b <= 9464
    modifies r
    ensures r[..] == PolyNttSpec(old(r[..]))
  {
    hide CtLayers, Ntt, Reduce, CongSeq, AllFit16, Bounded;
    ghost var s := r[..];
    SmallFits(s, b);
    NttInPlace(r);
    NttCOk(s, b);
    ReduceCong(CtLayers(s, BITS), Ntt(s, BITS, 1));
    PolyReduce(r);
    TopNode();
  }

  lemma ScaleAllOk(g: Poly, t: Poly)
    requires AllFit16(g) && CongSeq(g, t)
    ensures CongSeq(Scale(65536, ScaleAll(g)), Scale(INV_F, t))
  {
    hide Cong, FinalFqmul;
    forall i | 0 <= i < |g| ensures Cong(Scale(65536, ScaleAll(g))[i], Scale(INV_F, t)[i]) {
      CongRefl(INV_F);
      CongMul(INV_F, INV_F, g[i], t[i]);
      CongTrans(65536 * FinalFqmul(g[i]), INV_F * g[i], INV_F * t[i]);
    }
  }

  lemma {:induction false} InvNttCOk(s: Poly)
    requires |s| == 256 && Bounded(s, 16383)
    ensures |s| == Two(BITS + 1) && Node(BITS, 1)
    ensures CongSeq(Scale(65536, InvNttC(s)), Scale(INV_F, InvNtt(s, BITS, 1)))
  {
    hide GsLayers, InvAll, InvNtt, AllFit16, Blocks, ScaleAll, CongSeq, Bounded, Scale;
    TopNode();
    TwoZero();
    GsLayersOk(s, BITS);
    GsLayersFit(s);
    InvAllOne(s, BITS, 1);
    ScaleAllOk(GsLayers(s, BITS), InvNtt(s, BITS, 1));
  }

  lemma InvAllOne(s: Poly, l: nat, k: nat)
    requires Blocks(s, l, k, 1) && |s| == Two(l + 1)
    ensures Node(l, k) && InvAll(s, l, k, 1) == InvNtt(s, l, k)
  {
    hide Blocks, Two, InvNtt, Node;
    InvAllUnfold(s, l, k, 1);

    assert s[..Two(l + 1)] == s && s[Two(l + 1)..] == [];
  }

  // If the transform-domain input is a multiple x of a transform, so is the output, by 2^16 * x
  lemma {:induction false} InvNttCOfScaled(s: Poly, p: Poly, x: int)
    requires |s| == |p| == 256 && Bounded(s, 16383) && |p| == Two(BITS + 1) && Node(BITS, 1)
    requires CongSeq(Scale(x, InvNtt(s, BITS, 1)), Scale(128, p))
    ensures CongSeq(Scale(x, InvNttC(s)), Scale(65536, p))
  {
    hide InvNtt, InvNttC;
    InvNttCOk(s);
    var c, t := InvNttC(s), InvNtt(s, BITS, 1);
    forall i | 0 <= i < 256 ensures Cong(x * c[i], 65536 * p[i]) {
      ScaledStep(x, c[i], t[i], p[i]) by {
        assert Cong(Scale(65536, c)[i], Scale(INV_F, t)[i]);
        assert Cong(Scale(x, t)[i], Scale(128, p)[i]);
      }
    }
  }

  // 1441 * 128 == 2^32 modulo q
  lemma ScaledStep(x: int, c: int, t: int, p: int)
    requires Cong(65536 * c, INV_F * t) && Cong(x * t, 128 * p)
    ensures Cong(x * c, 65536 * p)
  {
    var k, m := CongQuotient(65536 * c, INV_F * t), CongQuotient(x * t, 128 * p);
    // 65536 x c == 1441 x t + q x k == 1441 * 128 p + q (1441 m + x k)
    calc {
      x * c * 65536;
      x * (65536 * c);
      x * (INV_F * t + Q * k);
      INV_F * (x * t) + Q * (x * k);
      INV_F * (128 * p + Q * m) + Q * (x * k);
      INV_F * 128 * p + Q * (INV_F * m + x * k);
      { assert INV_F * 128 == 65536 * 65536 + Q * -1290112; }
      65536 * p * 65536 + Q * (INV_F * m + x * k - 1290112 * p);
    }
    CongIntro(x * c * 65536, 65536 * p * 65536, INV_F * m + x * k - 1290112 * p);
    CongCancelMont(x * c, 65536 * p);
  }

  // ----- basemul -----

  lemma ProductInRange(a: int, b: int, x: int, y: int)
    requires -x <= a <= x && -y <= b <= y && x * y < Q * 32768
    ensures MontRange(a * b)
  {
    ProductBound(a, b, x, y);
  }

  lemma SmallProduct(u: int, z: int)
    requires -Q < u < Q && -1659 <= z <= 1659
    ensures MontRange(u * z)
  {
    ProductBound(u, z, Q, 1659);
  }

  // r[0] and r[1] of basemul
  function BasemulC(a0: int, a1: int, b0: int, b1: int, zeta: int): (r: (int, int))
    ensures Fits16(r.0) && Fits16(r.1)
  {
    (I16(Fqmul(Fqmul(a1, b1), zeta) + Fqmul(a0, b0)), I16(Fqmul(a0, b1) + Fqmul(a1, b0)))
  }

  // zeta stands for the root g: the pair is the product modulo X^2 - g, times 2^-16
  lemma BasemulOk(a0: int, a1: int, b0: int, b1: int, zeta: int, g: int, x: int, y: int)
    requires -x <= a0 <= x && -x <= a1 <= x && -y <= b0 <= y && -y <= b1 <= y && x * y < Q * 32768
    requires -1659 <= zeta <= 1659 && Cong(zeta, g * 65536)
    ensures -2 * Q < BasemulC(a0, a1, b0, b1, zeta).0 < 2 * Q
    ensures -2 * Q < BasemulC(a0, a1, b0, b1, zeta).1 < 2 * Q
    ensures Cong(65536 * BasemulC(a0, a1, b0, b1, zeta).0, a0 * b0 + g * (a1 * b1))
    ensures Cong(65536 * BasemulC(a0, a1, b0, b1, zeta).1, a0 * b1 + a1 * b0)
  {
    hide Cong, Fqmul;
    ProductInRange(a0, b0, x, y);
    ProductInRange(a0, b1, x, y);
    ProductInRange(a1, b0, x, y);
    ProductInRange(a1, b1, x, y);
    hide MontRange;
    var u := Fqmul(a1, b1);
    SmallProduct(u, zeta);
    var v := Fqmul(u, zeta);
    RootProduct(u, v, zeta, g, a1 * b1);
    var p, q, s := Fqmul(a0, b0), Fqmul(a0, b1), Fqmul(a1, b0);
    CongAdd(v * 65536, g * (a1 * b1), p * 65536, a0 * b0);
    CongAdd(q * 65536, a0 * b1, s * 65536, a1 * b0);
    assert 65536 * (v + p) == v * 65536 + p * 65536 && 65536 * (q + s) == q * 65536 + s * 65536;
  }

  lemma RootProduct(u: int, v: int, zeta: int, g: int, c: int)
    requires Cong(u * 65536, c) && Cong(v * 65536, u * zeta) && Cong(zeta, g * 65536)
    ensures Cong(v * 65536, g * c)
  {
    hide *;
    CongRefl(u);
    CongRefl(g);
    CongMul(u, u, zeta, g * 65536);
    CongMul(g, g, u * 65536, c);
    assert u * (g * 65536) == g * (u * 65536);
    CongTrans(v * 65536, u * zeta, u * (g * 65536));
    CongTrans(v * 65536, g * (u * 65536), g * c);
  }

  // The zeta argument of the basemul for pair j: zetas[64 + j / 2] or its negation
  function PairZeta(j: nat): int {
    if j % 2 == 0 then Zeta(64 + j / 2) else -Zeta(64 + j / 2)
  }

  lemma PairZetaOk(j: nat)
    requires j < 128
    ensures -1659 <= PairZeta(j) <= 1659 && Cong(PairZeta(j), Gamma(128 + j) * 65536)
  {
    hide Zeta, Root, Cong;
    var k := 64 + j / 2;
    ZetaBound(k);
    TableIsRoots(k);
    if j % 2 == 0 {
      assert (128 + j) / 2 == k && (128 + j) % 2 == 0;
    } else {
      assert (128 + j) / 2 == k && (128 + j) % 2 == 1;
      CongRefl(0);
      CongAdd(0, 0, Zeta(k), Root(k) * 65536);
      assert 0 - Root(k) * 65536 == -Root(k) * 65536;
    }
  }

  // ----- poly_basemul_montgomery -----

  // Pairs j, j + 1, .. of the product; one leaf ring per pair
  ghost function LeafProducts(a: Poly, b: Poly, j: nat, m: nat): (r: Poly)
    requires |a| == |b| == 2 * m
    ensures |r| == 2 * m
    decreases m
  {
    if m == 0 then [] else Mul(a[..2], b[..2], Gamma(128 + j)) + LeafProducts(a[2..], b[2..], j + 1, m - 1)
  }

  lemma {:induction false} LeafProductsAppend(a: Poly, b: Poly, a': Poly, b': Poly, j: nat, m: nat, m': nat)
    requires |a| == |b| == 2 * m && |a'| == |b'| == 2 * m'
    ensures LeafProducts(a + a', b + b', j, m + m')
         == LeafProducts(a, b, j, m) + LeafProducts(a', b', j + m, m')
    decreases m
  {
    hide Mul, Gamma;
    if m == 0 {
      assert a + a' == a' && b + b' == b';
    } else {
      assert (a + a')[..2] == a[..2] && (a + a')[2..] == a[2..] + a';
      assert (b + b')[..2] == b[..2] && (b + b')[2..] == b[2..] + b';
      LeafProductsAppend(a[2..], b[2..], a', b', j + 1, m - 1, m');
    }
  }

  lemma {:induction false} NttMulIsLeafProducts(a: Poly, b: Poly, l: nat, k: nat, j: nat)
    requires |a| == |b| == Two(l + 1) == 2 * Two(l) && 128 + j == k * Two(l)
    ensures NttMul(a, b, l, k) == LeafProducts(a, b, j, Two(l))
    decreases l
  {
    if l == 0 {
      LeafIsProduct(a, b, j);
    } else {
      NttMulIsLeafProductsStep(a, b, l, k, j);
    }
  }

  lemma LeafIsProduct(a: Poly, b: Poly, j: nat)
    requires |a| == |b| == 2
    ensures LeafProducts(a, b, j, 1) == Mul(a, b, Gamma(128 + j))
  {
    hide Mul, Gamma;
    assert a[..2] == a && b[..2] == b;
    assert LeafProducts(a[2..], b[2..], j + 1, 0) == [];
  }

  lemma NttMulSlices(a: Poly, b: Poly, l: nat, k: nat)
    requires |a| == |b| == Two(l + 1) && l > 0
    ensures Two(l) == 2 * Two(l - 1) && Two(l + 1) == 2 * Two(l)
    ensures a[..Two(l)] + a[Two(l)..] == a && b[..Two(l)] + b[Two(l)..] == b
    ensures NttMul(a, b, l, k) == NttMul(a[..Two(l)], b[..Two(l)], l - 1, 2 * k)
                                + NttMul(a[Two(l)..], b[Two(l)..], l - 1, 2 * k + 1)
  {
    hide Mul, Gamma;
  }

  lemma {:induction false} NttMulIsLeafProductsStep(a: Poly, b: Poly, l: nat, k: nat, j: nat)
    requires |a| == |b| == Two(l + 1) == 2 * Two(l) && 128 + j == k * Two(l) && l > 0
    ensures NttMul(a, b, l, k) == LeafProducts(a, b, j, Two(l))
    decreases l, 0
  {
    hide *;
    NttMulSlices(a, b, l, k);
    var n, h := Two(l), Two(l - 1);
    assert 2 * k * h == k * n && (2 * k + 1) * h == k * n + h;
    NttMulIsLeafProducts(a[..n], b[..n], l - 1, 2 * k, j);
    NttMulIsLeafProducts(a[n..], b[n..], l - 1, 2 * k + 1, j + h);
    LeafProductsAppend(a[..n], b[..n], a[n..], b[n..], j, h, h);
  }

  lemma {:induction false} LeafProductAt(a: Poly, b: Poly, j: nat, m: nat, i: nat)
    requires |a| == |b| == 2 * m && i < m
    ensures var g := Gamma(128 + j + i); var r := LeafProducts(a, b, j, m);
      r[2 * i] == a[2 * i] * b[2 * i] + g * (a[2 * i + 1] * b[2 * i + 1])
      && r[2 * i + 1] == a[2 * i] * b[2 * i + 1] + a[2 * i + 1] * b[2 * i]
    decreases m
  {
    hide Gamma;
    if i == 0 {
      PairMul(a[..2], b[..2], Gamma(128 + j));
    } else {
      LeafProductAt(a[2..], b[2..], j + 1, m - 1, i - 1);
    }
  }

  lemma PairMul(a: Poly, b: Poly, g: int)
    requires |a| == |b| == 2
    ensures Mul(a, b, g)[0] == a[0] * b[0] + g * (a[1] * b[1])
    ensures Mul(a, b, g)[1] == a[0] * b[1] + a[1] * b[0]
  {
    MulIsSchoolbook(a, b, g, 0);
    MulIsSchoolbook(a, b, g, 1);
    assert SchoolSum(a, b, g, 0, 2) == 0 && SchoolSum(a, b, g, 1, 2) == 0;
    assert a[1] * (g * b[1]) == g * (a[1] * b[1]);
    assert SchoolSum(a, b, g, 0, 1) == a[1] * ShiftedCoeff(b, g, 0, 1);
    assert SchoolSum(a, b, g, 1, 1) == a[1] * ShiftedCoeff(b, g, 1, 1);
  }

  function BasemulAt(a: Poly, b: Poly, j: nat): (int, int)
    requires |a| == |b| && 2 * j + 1 < |a| && j < 128
  {
    BasemulC(a[2 * j], a[2 * j + 1], b[2 * j], b[2 * j + 1], PairZeta(j))
  }

  function BasemulAll(a: Poly, b: Poly): (r: Poly)
    requires |a| == |b| == 256
    ensures |r| == 256 && AllFit16(r)
  {
    seq(256, i requires 0 <= i < 256 =>
      if i % 2 == 0 then BasemulAt(a, b, i / 2).0 else BasemulAt(a, b, i / 2).1)
  }

  method Basemul(r: array<int>, a: array<int>, b: array<int>, o: nat, zeta: int)
    requires o + 1 < r.Length && o + 1 < a.Length && o + 1 < b.Length && r != a && r != b
    modifies r
    ensures (r[o], r[o + 1]) == BasemulC(a[o], a[o + 1], b[o], b[o + 1], zeta)
    ensures forall i :: 0 <= i < r.Length && i != o && i != o + 1 ==> r[i] == old(r[i])
  {
    r[o] := Fqmul(a[o + 1], b[o + 1]);
    r[o] := Fqmul(r[o], zeta);
    r[o] := I16(r[o] + Fqmul(a[o], b[o]));
    r[o + 1] := Fqmul(a[o], b[o + 1]);
    r[o + 1] := I16(r[o + 1] + Fqmul(a[o + 1], b[o]));
  }

  lemma BasemulAllPair(a: Poly, b: Poly, j: nat)
    requires |a| == |b| == 256 && j < 128
    ensures BasemulAll(a, b)[2 * j]
         == BasemulC(a[2 * j], a[2 * j + 1], b[2 * j], b[2 * j + 1], PairZeta(j)).0
    ensures BasemulAll(a, b)[2 * j + 1]
         == BasemulC(a[2 * j], a[2 * j + 1], b[2 * j], b[2 * j + 1], PairZeta(j)).1
  {
    hide BasemulC, PairZeta;
  }

  lemma PairZetas(i: nat)
    ensures PairZeta(2 * i) == Zeta(64 + i) && PairZeta(2 * i + 1) == -Zeta(64 + i)
  {
    hide Zeta;
  }

  method PolyBasemul(r: array<int>, a: array<int>, b: array<int>)
    requires r.Length == a.Length == b.Length == 256 && r != a && r != b
    modifies r
    ensures r[..] == BasemulAll(a[..], b[..])
  {
    hide BasemulC, Zeta, BasemulAll, PairZeta;
    ghost var c := BasemulAll(a[..], b[..]);
    var i := 0;
    while i < 64
      invariant 0 <= i <= 64
      invariant forall p :: 0 <= p < 4 * i ==> r[p] == c[p]
    {
      PairZetas(i);
      BasemulAllPair(a[..], b[..], 2 * i);
      BasemulAllPair(a[..], b[..], 2 * i + 1);
      Basemul(r, a, b, 4 * i, Zeta(64 + i));
      Basemul(r, a, b, 4 * i + 2, -Zeta(64 + i));
      i := i + 1;
    }
    assert r[..] == c;
  }

  // Products of the coefficients of a and b stay in the range of montgomery_reduce
  ghost predicate ProductsFit(a: Poly, b: Poly, x: int, y: int) {
    Bounded(a, x) && Bounded(b, y) && x * y < Q * 32768
  }

  lemma BasemulAtOk(a: Poly, b: Poly, j: nat, x: int, y: int)
    requires |a| == |b| == 256 && j < 128 && ProductsFit(a, b, x, y)
    ensures -2 * Q < BasemulAt(a, b, j).0 < 2 * Q && -2 * Q < BasemulAt(a, b, j).1 < 2 * Q
    ensures Cong(65536 * BasemulAt(a, b, j).0, LeafProducts(a, b, 0, 128)[2 * j])
    ensures Cong(65536 * BasemulAt(a, b, j).1, LeafProducts(a, b, 0, 128)[2 * j + 1])
  {
    hide Cong, BasemulC, PairZeta, Gamma, LeafProducts;
    PairZetaOk(j);
    LeafProductAt(a, b, 0, 128, j);
    BasemulOk(a[2 * j], a[2 * j + 1], b[2 * j], b[2 * j + 1], PairZeta(j), Gamma(128 + j), x, y);
  }

  lemma {:induction false} BasemulAllOk(a: Poly, b: Poly, x: int, y: int)
    requires |a| == |b| == 256 && ProductsFit(a, b, x, y)
    ensures |a| == Two(BITS + 1) && Bounded(BasemulAll(a, b), 2 * Q - 1)
    ensures CongSeq(Scale(65536, BasemulAll(a, b)), NttMul(a, b, BITS, 1))
  {
    hide Cong, BasemulAt, NttMul, LeafProducts;
    TopNode();
    NttMulIsLeafProducts(a, b, BITS, 1, 0);
    forall i | 0 <= i < 256
      ensures Cong(Scale(65536, BasemulAll(a, b))[i], NttMul(a, b, BITS, 1)[i])
      ensures -2 * Q < BasemulAll(a, b)[i] < 2 * Q
    {
      BasemulAtOk(a, b, i / 2, x, y);
      if i % 2 == 0 { assert 2 * (i / 2) == i; } else { assert 2 * (i / 2) + 1 == i; }
    }
  }

  // ----- Main laws of the reference transform -----

  lemma CancelScale(s: Poly, t: Poly)
    requires CongSeq(Scale(65536, s), Scale(65536, t))
    ensures CongSeq(s, t)
  {
    hide Cong;
    assert |s| == |t|;
    forall i | 0 <= i < |s| ensures Cong(s[i], t[i]) {
      assert Cong(Scale(65536, s)[i], Scale(65536, t)[i]);
      CongCancelMont(s[i], t[i]);
    }
  }

  // A transform-domain value s with 2^16 * s = t maps to the inverse image of t
  lemma {:induction false} InvNttCOfMont(s: Poly, t: Poly, p: Poly)
    requires |s| == |t| == |p| == 256 == Two(BITS + 1) && Node(BITS, 1) && Bounded(s, 16383)
    requires CongSeq(Scale(65536, s), t) && CongSeq(InvNtt(t, BITS, 1), Scale(128, p))
    ensures CongSeq(InvNttC(s), p)
  {
    hide *;
    InvNttScale(65536, s, BITS, 1);
    InvNttCong(Scale(65536, s), t, BITS, 1);
    CongSeqTrans(Scale(65536, InvNtt(s, BITS, 1)), InvNtt(t, BITS, 1), Scale(128, p));
    InvNttCOfScaled(s, p, 65536);
    CancelScale(InvNttC(s), p);
  }

  // poly_invntt_tomont(poly_basemul_montgomery(poly_ntt a, poly_ntt b)) is a * b
  lemma {:induction false} ReferenceProduct(a: Poly, b: Poly)
    requires |a| == |b| == 256
    ensures CongSeq(InvNttC(BasemulAll(PolyNttSpec(a), PolyNttSpec(b))), Mul(a, b, -1))
    ensures Bounded(InvNttC(BasemulAll(PolyNttSpec(a), PolyNttSpec(b))), Q - 1)
  {
    hide *;
    TopNode();
    PolyNttSpecOk(a);
    PolyNttSpecOk(b);
    var s, t := PolyNttSpec(a), PolyNttSpec(b);
    var u, v := Ntt(a, BITS, 1), Ntt(b, BITS, 1);
    BasemulReduced(s, t);
    NttMulCong(s, u, t, v, BITS, 1);
    CongSeqTrans(Scale(65536, BasemulAll(s, t)), NttMul(s, t, BITS, 1), NttMul(u, v, BITS, 1));
    ProductThroughTransform(a, b);
    InvNttCOfMont(BasemulAll(s, t), NttMul(u, v, BITS, 1), Mul(a, b, -1));
  }

  lemma PolyNttSpecOk(a: Poly)
    requires |a| == 256
    ensures |a| == Two(BITS + 1) && CongSeq(PolyNttSpec(a), Ntt(a, BITS, 1)) && Bounded(PolyNttSpec(a), 1664)
  {
    TopNode();
    ReduceOk(Ntt(a, BITS, 1));
  }

  lemma BasemulReduced(s: Poly, t: Poly)
    requires |s| == |t| == 256 && Bounded(s, 1664) && Bounded(t, 1664)
    ensures |s| == Two(BITS + 1) && Bounded(BasemulAll(s, t), 16383)
    ensures CongSeq(Scale(65536, BasemulAll(s, t)), NttMul(s, t, BITS, 1))
  {
    hide BasemulAll, NttMul, CongSeq;
    BasemulAllOk(s, t, 1664, 1664);
  }

  // poly_invntt_tomont(poly_ntt a) is 2^16 * a
  lemma {:induction false} ReferenceRoundTrip(a: Poly)
    requires |a| == 256
    ensures CongSeq(InvNttC(PolyNttSpec(a)), Scale(65536, a))
  {
    hide InvNttC, InvNtt, Ntt, PolyNttSpec, CongSeq;
    TopNode();
    PolyNttSpecOk(a);
    var s := PolyNttSpec(a);
    WidenBound(s, 1664, 16383);
    InvNttCong(s, Ntt(a, BITS, 1), BITS, 1);
    InvNttOfNtt(a, BITS, 1);
    CongSeqTrans(InvNtt(s, BITS, 1), InvNtt(Ntt(a, BITS, 1), BITS, 1), Scale(128, a));
    ScaleOne(InvNtt(s, BITS, 1));
    InvNttCOfScaled(s, a, 1);
    ScaleOne(InvNttC(s));
  }

  lemma ScaleOne(s: Poly)
    ensures Scale(1, s) == s
  {
  }

  lemma WidenBound(s: Poly, b: int, c: int)
    requires Bounded(s, b) && b <= c
    ensures Bounded(s, c)
  {
  }
}
