/** K-PKE of section 5 of FIPS 203 for k = 2, on polynomials, and the exact condition under which
    decryption returns the encrypted message. Matrix and key polynomials are in the transform
    domain, noise polynomials in the coefficient domain, as in kyber/ref/indcpa.c. */
module Kpke {
  import opened ModQ
  import opened Ring
  import opened Zetas
  import opened NttSpec
  import opened PolyRing

  const INV128: int := 3303      // 128^-1 modulo q

  type Elem = s: seq<int> | |s| == 256 witness seq(256, i => 0)

  ghost function Hat(f: Poly): (r: Elem)
    requires |f| == 256
    ensures |r| == 256
  {
    TopNode();
    Ntt(f, BITS, 1)
  }

  ghost function HatMul(f: Poly, g: Poly): (r: Elem)
    requires |f| == |g| == 256
    ensures |r| == 256
  {
    TopNode();
    NttMul(f, g, BITS, 1)
  }

  // The inverse transform with its true scale
  ghost function Unhat(f: Poly): (r: Elem)
    requires |f| == 256
    ensures |r| == 256
  {
    TopNode();
    Scale(INV128, InvNtt(f, BITS, 1))
  }

  function RMul(a: Poly, b: Poly): (r: Elem)
    requires |a| == |b| == 256
    ensures |r| == 256
  {
    Mul(a, b, -1)
  }

  // ----- Laws of the transform domain -----

  lemma ScaleInv128(f: Poly)
    ensures CongSeq(Scale(INV128, Scale(128, f)), f)
  {
    hide Cong;
    forall i | 0 <= i < |f| ensures Cong(INV128 * (128 * f[i]), f[i]) {
      // 3303 * 128 == 1 + 127 q
      CongIntro(INV128 * (128 * f[i]), f[i], 127 * f[i]);
    }
  }

  lemma {:induction false} UnhatOfHat(f: Poly)
    requires |f| == 256
    ensures CongSeq(Unhat(Hat(f)), f)
  {
    hide Ntt, InvNtt, CongSeq, Scale;
    TopNode();
    InvNttOfNtt(f, BITS, 1);
    CongRefl(INV128);
    ScaleCong(INV128, INV128, InvNtt(Ntt(f, BITS, 1), BITS, 1), Scale(128, f));
    ScaleInv128(f);
    CongSeqTrans(Unhat(Hat(f)), Scale(INV128, Scale(128, f)), f);
  }

  lemma {:induction false} HatOfUnhat(f: Poly)
    requires |f| == 256
    ensures CongSeq(Hat(Unhat(f)), f)
  {
    hide Ntt, InvNtt, CongSeq, Scale;
    TopNode();
    var g := InvNtt(f, BITS, 1);
    NttOfInvNtt(f, BITS, 1);
    NttScale(INV128, g, BITS, 1);
    CongRefl(INV128);
    ScaleCong(INV128, INV128, Ntt(g, BITS, 1), Scale(128, f));
    ScaleInv128(f);
    CongSeqTrans(Hat(Unhat(f)), Scale(INV128, Scale(128, f)), f);
  }

  lemma {:induction false} UnhatCong(f: Poly, g: Poly)
    requires |f| == 256 && CongSeq(f, g)
    ensures CongSeq(Unhat(f), Unhat(g))
  {
    hide InvNtt, CongSeq, Scale;
    CongSeqLength(f, g);
    TopNode();
    InvNttCong(f, g, BITS, 1);
    CongRefl(INV128);
    ScaleCong(INV128, INV128, InvNtt(f, BITS, 1), InvNtt(g, BITS, 1));
  }

  lemma CongSeqLength(f: Poly, g: Poly)
    requires CongSeq(f, g)
    ensures |f| == |g|
  {
  }

  lemma {:induction false} HatMulCong(f: Poly, f': Poly, g: Poly, g': Poly)
    requires |f| == |g| == 256 && CongSeq(f, f') && CongSeq(g, g')
    ensures |f'| == |g'| == 256 && CongSeq(HatMul(f, g), HatMul(f', g'))
  {
    hide NttMul;
    TopNode();
    NttMulCong(f, f', g, g', BITS, 1);
  }

  // Multiplying a transform-domain value by a transform multiplies in the ring
  lemma {:induction false} UnhatOfProduct(f: Poly, r: Poly)
    requires |f| == |r| == 256
    ensures CongSeq(Unhat(HatMul(f, Hat(r))), RMul(Unhat(f), r))
  {
    hide CongSeq, Hat, HatMul, Unhat, RMul;
    var x := Unhat(f);
    HatOfUnhat(f);
    CongSeqSym(Hat(x), f);
    CongSeqRefl(Hat(r));
    HatMulCong(f, Hat(x), Hat(r), Hat(r));
    HatOfProduct(x, r);
    CongSeqSym(Hat(RMul(x, r)), HatMul(Hat(x), Hat(r)));
    CongSeqTrans(HatMul(f, Hat(r)), HatMul(Hat(x), Hat(r)), Hat(RMul(x, r)));
    UnhatCong(HatMul(f, Hat(r)), Hat(RMul(x, r)));
    UnhatOfHat(RMul(x, r));
    CongSeqTrans(Unhat(HatMul(f, Hat(r))), Unhat(Hat(RMul(x, r))), RMul(x, r));
  }

  lemma {:induction false} HatOfProduct(a: Poly, b: Poly)
    requires |a| == |b| == 256
    ensures CongSeq(Hat(RMul(a, b)), HatMul(Hat(a), Hat(b)))
  {
    hide Ntt, NttMul, Mul, CongSeq;
    TopNode();
    NttOfProduct(a, b, BITS, 1);
  }

  // The inverse transform is additive
  lemma MergeAdd(a: Poly, b: Poly, a': Poly, b': Poly, z: int)
    requires |a| == |b| == |a'| == |b'|
    ensures Merge(Add(a, a'), Add(b, b'), z) == Add(Merge(a, b, z), Merge(a', b', z))
  {
    var l, r := Merge(Add(a, a'), Add(b, b'), z), Add(Merge(a, b, z), Merge(a', b', z));
    var n := |a|;
    forall i | 0 <= i < 2 * n ensures l[i] == r[i] {
      if i >= n {
        var j := i - n;
        assert z * ((b[j] + b'[j]) - (a[j] + a'[j])) == z * (b[j] - a[j]) + z * (b'[j] - a'[j]);
      }
    }
  }

  lemma {:induction false} InvNttAdd(f: Poly, g: Poly, l: nat, k: nat)
    requires |f| == |g| == Two(l + 1) && Node(l, k)
    ensures InvNtt(Add(f, g), l, k) == Add(InvNtt(f, l, k), InvNtt(g, l, k))
    decreases l
  {
    if l > 0 {
      InvNttAddStep(f, g, l, k);
    }
  }

  lemma AddHalves(f: Poly, g: Poly, n: nat)
    requires |f| == |g| && n <= |f|
    ensures f == f[..n] + f[n..] && g == g[..n] + g[n..]
    ensures Add(f, g) == Add(f[..n], g[..n]) + Add(f[n..], g[n..])
  {
  }

  lemma {:induction false} InvNttAddStep(f: Poly, g: Poly, l: nat, k: nat)
    requires |f| == |g| == Two(l + 1) && Node(l, k) && l > 0
    ensures InvNtt(Add(f, g), l, k) == Add(InvNtt(f, l, k), InvNtt(g, l, k))
    decreases l, 0
  {
    hide *;
    NodeChildren(l, k);
    var n := Two(l);
    var f0, f1, g0, g1 := f[..n], f[n..], g[..n], g[n..];
    AddHalves(f, g, n);
    InvNttHalves(f0, f1, l, k);
    InvNttHalves(g0, g1, l, k);
    InvNttHalves(Add(f0, g0), Add(f1, g1), l, k);
    InvNttAdd(f0, g0, l - 1, 2 * k);
    InvNttAdd(f1, g1, l - 1, 2 * k + 1);
    MergeAdd(InvNtt(f0, l - 1, 2 * k), InvNtt(f1, l - 1, 2 * k + 1),
             InvNtt(g0, l - 1, 2 * k), InvNtt(g1, l - 1, 2 * k + 1), Root(Mirror(k)));
  }

  lemma {:induction false} UnhatAdd(f: Poly, g: Poly)
    requires |f| == |g| == 256
    ensures Unhat(Add(f, g)) == Add(Unhat(f), Unhat(g))
  {
    hide InvNtt, Add, Scale;
    TopNode();
    InvNttAdd(f, g, BITS, 1);
    ScaleAdd(INV128, InvNtt(f, BITS, 1), InvNtt(g, BITS, 1));
  }

  // ----- K-PKE -----

  // Inverse transform of x0 o r0^ + x1 o r1^
  ghost function Dot(x0: Poly, x1: Poly, r0: Poly, r1: Poly): (d: Elem)
    requires |x0| == |x1| == |r0| == |r1| == 256
    ensures |d| == 256
  {
    Unhat(Add(HatMul(x0, Hat(r0)), HatMul(x1, Hat(r1))))
  }

  // t^ = A^ o s^ + e^, one row
  ghost function KeyRow(a0: Poly, a1: Poly, s0: Poly, s1: Poly, e: Poly): (t: Elem)
    requires |a0| == |a1| == |s0| == |s1| == |e| == 256
    ensures |t| == 256
  {
    Reduce(Add(Add(HatMul(a0, Hat(s0)), HatMul(a1, Hat(s1))), Hat(e)))
  }

  // u, one row; v is the same with e2 + mu for e
  ghost function CipherRow(x0: Poly, x1: Poly, r0: Poly, r1: Poly, e: Poly): (u: Elem)
    requires |x0| == |x1| == |r0| == |r1| == |e| == 256
    ensures |u| == 256
  {
    Reduce(Add(Dot(x0, x1, r0, r1), e))
  }

  // w = v - NTT^-1(s^ o NTT(u))
  ghost function PlainPoly(s0: Poly, s1: Poly, u0: Poly, u1: Poly, v: Poly): (w: Elem)
    requires |s0| == |s1| == |u0| == |u1| == |v| == 256
    ensures |w| == 256
  {
    Reduce(Sub(v, Dot(s0, s1, u0, u1)))
  }

  // ----- The same in the ring -----

  function RDot(x0: Poly, x1: Poly, r0: Poly, r1: Poly): (d: Elem)
    requires |x0| == |x1| == |r0| == |r1| == 256
    ensures |d| == 256
  {
    Add(RMul(x0, r0), RMul(x1, r1))
  }

  lemma {:induction false} DotIsRDot(x0: Poly, x1: Poly, r0: Poly, r1: Poly)
    requires |x0| == |x1| == |r0| == |r1| == 256
    ensures CongSeq(Dot(x0, x1, r0, r1), RDot(Unhat(x0), Unhat(x1), r0, r1))
  {
    hide CongSeq, Hat, HatMul, Unhat, RMul, Add;
    UnhatAdd(HatMul(x0, Hat(r0)), HatMul(x1, Hat(r1)));
    UnhatOfProduct(x0, r0);
    UnhatOfProduct(x1, r1);
    AddCong(Unhat(HatMul(x0, Hat(r0))), RMul(Unhat(x0), r0),
            Unhat(HatMul(x1, Hat(r1))), RMul(Unhat(x1), r1));
  }

  lemma {:induction false} KeyRowInRing(a0: Poly, a1: Poly, s0: Poly, s1: Poly, e: Poly, t: Poly)
    requires |a0| == |a1| == |s0| == |s1| == |e| == 256
    requires CongSeq(t, KeyRow(a0, a1, s0, s1, e))
    ensures |t| == 256 && CongSeq(Unhat(t), Add(RDot(Unhat(a0), Unhat(a1), s0, s1), e))
  {
    hide CongSeq, Hat, HatMul, Unhat, RDot, Add;
    var d := Add(HatMul(a0, Hat(s0)), HatMul(a1, Hat(s1)));
    var h := Add(d, Hat(e));
    CongSeqLength(t, KeyRow(a0, a1, s0, s1, e));
    ReduceOk(h);
    CongSeqTrans(t, Reduce(h), h);
    UnhatCong(t, h);
    UnhatAdd(d, Hat(e));
    DotIsRDot(a0, a1, s0, s1);
    UnhatOfHat(e);
    AddCong(Unhat(d), RDot(Unhat(a0), Unhat(a1), s0, s1), Unhat(Hat(e)), e);
    CongSeqTrans(Unhat(t), Add(Unhat(d), Unhat(Hat(e))), Add(RDot(Unhat(a0), Unhat(a1), s0, s1), e));
  }
}
