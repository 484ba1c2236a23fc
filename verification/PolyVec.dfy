/** Polynomial-vector steps of kyber/ref/polyvec.c and kyber/ref/poly.c for k = 2, each proved to
    compute one K-PKE formula: the accumulated Montgomery products, poly_tomont, poly_add. */
module PolyVec {
  import opened ModQ
  import opened Ring
  import opened NttSpec
  import opened Zetas
  import opened NttImpl
  import opened InvNttImpl
  import opened PolyRing
  import opened Kpke

  function Add16(a: Poly, b: Poly): (r: Poly)
    requires |a| == |b|
    ensures |r| == |a| && AllFit16(r)
  {
    seq(|a|, i requires 0 <= i < |a| => I16(a[i] + b[i]))
  }

  function Sub16(a: Poly, b: Poly): (r: Poly)
    requires |a| == |b|
    ensures |r| == |a| && AllFit16(r)
  {
    seq(|a|, i requires 0 <= i < |a| => I16(a[i] - b[i]))
  }

  lemma Add16Exact(a: Poly, b: Poly, x: int, y: int)
    requires |a| == |b| && Bounded(a, x) && Bounded(b, y) && x + y < 32768
    ensures Add16(a, b) == Add(a, b) && Bounded(Add(a, b), x + y)
    ensures Sub16(a, b) == Sub(a, b) && Bounded(Sub(a, b), x + y)
  {
    assert forall i :: 0 <= i < |a| ==> Fits16(a[i] + b[i]) && Fits16(a[i] - b[i]);
  }

  // poly_add(r, r, b)
  method PolyAdd(r: array<int>, b: array<int>)
    requires r.Length == b.Length && r != b
    modifies r
    ensures r[..] == Add16(old(r[..]), b[..])
  {
    ghost var a := r[..];
    var i := 0;
    while i < r.Length
      invariant 0 <= i <= r.Length
      invariant forall p :: i <= p < r.Length ==> r[p] == a[p]
      invariant forall p :: 0 <= p < i ==> r[p] == I16(a[p] + b[p])
    {
      r[i] := I16(r[i] + b[i]);
      i := i + 1;
    }
  }

  // poly_sub(r, a, r)
  method PolySubFrom(r: array<int>, a: array<int>)
    requires r.Length == a.Length && r != a
    modifies r
    ensures r[..] == Sub16(a[..], old(r[..]))
  {
    ghost var b := r[..];
    var i := 0;
    while i < r.Length
      invariant 0 <= i <= r.Length
      invariant forall p :: i <= p < r.Length ==> r[p] == b[p]
      invariant forall p :: 0 <= p < i ==> r[p] == I16(a[p] - b[p])
    {
      r[i] := I16(a[i] - r[i]);
      i := i + 1;
    }
  }

  // ----- polyvec_basemul_acc_montgomery -----

  function AccC(a0: Poly, a1: Poly, b0: Poly, b1: Poly): (r: Poly)
    requires |a0| == |a1| == |b0| == |b1| == 256
    ensures |r| == 256
  {
    Reduce(Add16(BasemulAll(a0, b0), BasemulAll(a1, b1)))
  }

  method BasemulAcc(r: array<int>, a0: array<int>, a1: array<int>, b0: array<int>, b1: array<int>)
    requires r.Length == a0.Length == a1.Length == b0.Length == b1.Length == 256
    requires r != a0 && r != a1 && r != b0 && r != b1
    modifies r
    ensures r[..] == AccC(a0[..], a1[..], b0[..], b1[..])
  {
    var t := new int[256](i => 0);
    PolyBasemul(r, a0, b0);
    PolyBasemul(t, a1, b1);
    PolyAdd(r, t);
    PolyReduce(r);
  }

  lemma {:induction false} AccOk(a0: Poly, a1: Poly, b0: Poly, b1: Poly, h0: Poly, h1: Poly)
    requires |a0| == |a1| == |b0| == |b1| == |h0| == |h1| == 256
    requires Bounded(a0, 4095) && Bounded(a1, 4095) && Bounded(b0, 1664) && Bounded(b1, 1664)
    requires CongSeq(b0, h0) && CongSeq(b1, h1)
    ensures Bounded(AccC(a0, a1, b0, b1), 1664)
    ensures CongSeq(Scale(65536, AccC(a0, a1, b0, b1)), Add(HatMul(a0, h0), HatMul(a1, h1)))
  {
    hide CongSeq, Bounded, HatMul, BasemulAll, Add16, Reduce, Scale, Add;
    BasemulHat(a0, b0, h0);
    BasemulHat(a1, b1, h1);
    var p, q := BasemulAll(a0, b0), BasemulAll(a1, b1);
    Add16Exact(p, q, 2 * Q - 1, 2 * Q - 1);
    ReduceOk(Add(p, q));
    CongRefl(65536);
    ScaleCong(65536, 65536, Reduce(Add(p, q)), Add(p, q));
    ScaleAdd(65536, p, q);
    AddCong(Scale(65536, p), HatMul(a0, h0), Scale(65536, q), HatMul(a1, h1));
    CongSeqTrans(Scale(65536, Reduce(Add(p, q))), Add(Scale(65536, p), Scale(65536, q)),
                 Add(HatMul(a0, h0), HatMul(a1, h1)));
  }

  lemma {:induction false} BasemulHat(a: Poly, b: Poly, h: Poly)
    requires |a| == |b| == |h| == 256 && Bounded(a, 4095) && Bounded(b, 1664) && CongSeq(b, h)
    ensures Bounded(BasemulAll(a, b), 2 * Q - 1)
    ensures CongSeq(Scale(65536, BasemulAll(a, b)), HatMul(a, h))
  {
    hide CongSeq, Bounded, BasemulAll, NttMul, Scale;
    ProductsFitIntro(a, b);
    BasemulAllOk(a, b, 4095, 1664);
    CongSeqRefl(a);
    HatMulCong(a, a, b, h);
    CongSeqTrans(Scale(65536, BasemulAll(a, b)), HatMul(a, b), HatMul(a, h));
  }

  lemma ProductsFitIntro(a: Poly, b: Poly)
    requires Bounded(a, 4095) && Bounded(b, 1664)
    ensures ProductsFit(a, b, 4095, 1664)
  {
  }

  // invntt of the accumulated products is the K-PKE dot product
  lemma {:induction false} RowOk(x0: Poly, x1: Poly, r0: Poly, r1: Poly)
    requires |x0| == |x1| == |r0| == |r1| == 256 && Bounded(x0, 4095) && Bounded(x1, 4095)
    ensures var s := InvNttC(AccC(x0, x1, PolyNttSpec(r0), PolyNttSpec(r1)));
      CongSeq(s, Dot(x0, x1, r0, r1)) && Bounded(s, Q - 1)
  {
    hide CongSeq, Bounded, HatMul, Hat, AccC, Scale, Add, InvNttC, PolyNttSpec, InvNtt;
    var b0, b1 := PolyNttSpec(r0), PolyNttSpec(r1);
    NttIsHat(r0);
    NttIsHat(r1);
    AccOk(x0, x1, b0, b1, Hat(r0), Hat(r1));
    var t := Add(HatMul(x0, Hat(r0)), HatMul(x1, Hat(r1)));
    TopNode();
    WidenBound(AccC(x0, x1, b0, b1), 1664, 16383);
    UnhatScaled(t);
    InvNttCOfMont(AccC(x0, x1, b0, b1), t, Unhat(t));
  }

  lemma NttIsHat(r: Poly)
    requires |r| == 256
    ensures CongSeq(PolyNttSpec(r), Hat(r)) && Bounded(PolyNttSpec(r), 1664)
  {
    hide CongSeq, Bounded, Ntt, PolyNttSpec;
    TopNode();
    PolyNttSpecOk(r);
  }

  lemma {:induction false} UnhatScaled(t: Poly)
    requires |t| == 256 == Two(BITS + 1) && Node(BITS, 1)
    ensures CongSeq(InvNtt(t, BITS, 1), Scale(128, Unhat(t)))
  {
    hide CongSeq, InvNtt, Scale;
    var f := InvNtt(t, BITS, 1);
    ScaleInv128(f);
    ScaleSwap(128, INV128, f);
    CongSeqSym(Scale(INV128, Scale(128, f)), f);
  }

  // ----- poly_tomont -----

  const TOMONT_F: int := 1353     // 2^32 modulo q

  function TomontAt(x: int): (r: int)
    requires Fits16(x)
    ensures -Q < r < Q
    ensures Cong(r, 65536 * x)
  {
    var r := MontgomeryReduce(x * TOMONT_F);
    assert MontRange(x * TOMONT_F);
    assert Cong(r, 65536 * x) by { TomontCong(x, r); }
    r
  }

  lemma TomontCong(x: int, r: int)
    requires Cong(r * 65536, x * TOMONT_F)
    ensures Cong(r, 65536 * x)
  {
    // 1353 == 2^32 - 1290167 q
    CongIntro(x * TOMONT_F, 65536 * x * 65536, -1290167 * x);
    CongTrans(r * 65536, x * TOMONT_F, 65536 * x * 65536);
    CongCancelMont(r, 65536 * x);
  }

  function Tomont(s: Poly): (r: Poly)
    requires AllFit16(s)
    ensures |r| == |s| && Bounded(r, Q - 1) && CongSeq(r, Scale(65536, s))
  {
    seq(|s|, i requires 0 <= i < |s| => TomontAt(s[i]))
  }

  method PolyTomont(r: array<int>)
    requires AllFit16(r[..])
    modifies r
    ensures r[..] == Tomont(old(r[..]))
  {
    hide TomontAt;
    ghost var s := r[..];
    var i := 0;
    while i < r.Length
      invariant 0 <= i <= r.Length
      invariant forall p :: i <= p < r.Length ==> r[p] == s[p]
      invariant forall p :: 0 <= p < i ==> r[p] == TomontAt(s[p])
    {
      r[i] := TomontAt(r[i]);
      i := i + 1;
    }
  }
}
