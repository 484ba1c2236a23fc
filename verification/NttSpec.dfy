/** The number-theoretic transform of section 4.3 of FIPS 203 as recursion over the tree of
    factors of X^256 + 1, and its main laws: it turns multiplication into blockwise
    multiplication, and the inverse tree undoes it. Values are integers; laws hold modulo q. */
module NttSpec {
  import opened ModQ
  import opened Ring
  import opened Zetas

  // Node k has l layers below it and works on polynomials of length 2^(l+1)
  ghost predicate Node(l: nat, k: nat) {
    l <= BITS && Two(BITS - l) <= k < 2 * Two(BITS - l)
  }

  lemma NodeChildren(l: nat, k: nat)
    requires Node(l, k) && l > 0
    ensures 1 <= k < 128 && Node(l - 1, 2 * k) && Node(l - 1, 2 * k + 1)
    ensures Two(l + 1) == 2 * Two(l) && Two(l) == 2 * Two(l - 1)
  {
    assert Two(BITS - (l - 1)) == 2 * Two(BITS - l);
    TwoMonotone(BITS - l, 6);
    assert Two(6) == 64;
  }

  // Remainders of f modulo the leaves X^2 - Gamma below node k, left to right
  function Ntt(f: Poly, l: nat, k: nat): (r: Poly)
    requires |f| == Two(l + 1)
    ensures |r| == |f|
    decreases l
  {
    if l == 0 then f
    else Ntt(Split(f, Root(k)), l - 1, 2 * k) + Ntt(Split(f, -Root(k)), l - 1, 2 * k + 1)
  }

  // Inverse of the split at node k, up to a factor 2: (lo + hi) and (hi - lo) * (-1 / Root(k))
  function Merge(lo: Poly, hi: Poly, z: int): (r: Poly)
    requires |lo| == |hi|
    ensures |r| == 2 * |lo|
  {
    Add(lo, hi) + Scale(z, Sub(hi, lo))
  }

  function InvNtt(f: Poly, l: nat, k: nat): (r: Poly)
    requires |f| == Two(l + 1) && Node(l, k)
    ensures |r| == |f|
    decreases l
  {
    if l == 0 then f
    else
      NodeChildren(l, k);
      Merge(InvNtt(f[..Two(l)], l - 1, 2 * k), InvNtt(f[Two(l)..], l - 1, 2 * k + 1),
            Root(Mirror(k)))
  }

  // Product in the transform domain: one small ring per leaf
  function NttMul(a: Poly, b: Poly, l: nat, k: nat): (r: Poly)
    requires |a| == |b| == Two(l + 1)
    ensures |r| == |a|
  {
    if l == 0 then Mul(a, b, Gamma(k))
    else
      var n := Two(l);
      NttMul(a[..n], b[..n], l - 1, 2 * k) + NttMul(a[n..], b[n..], l - 1, 2 * k + 1)
  }

  // ----- Congruence -----

  lemma CongAppend(a: Poly, a': Poly, b: Poly, b': Poly)
    requires CongSeq(a, a') && CongSeq(b, b')
    ensures CongSeq(a + b, a' + b')
  {
  }

  lemma {:induction false} NttCong(f: Poly, g: Poly, l: nat, k: nat)
    requires CongSeq(f, g) && |f| == Two(l + 1)
    ensures CongSeq(Ntt(f, l, k), Ntt(g, l, k))
    decreases l
  {
    hide Cong, Root, Split;
    if l > 0 {
      var z := Root(k);
      SplitCong(f, g, z, z);
      SplitCong(f, g, -z, -z);
      NttCong(Split(f, z), Split(g, z), l - 1, 2 * k);
      NttCong(Split(f, -z), Split(g, -z), l - 1, 2 * k + 1);
      CongAppend(Ntt(Split(f, z), l - 1, 2 * k), Ntt(Split(g, z), l - 1, 2 * k),
                 Ntt(Split(f, -z), l - 1, 2 * k + 1), Ntt(Split(g, -z), l - 1, 2 * k + 1));
    }
  }

  lemma MergeCong(lo: Poly, hi: Poly, lo': Poly, hi': Poly, z: int)
    requires |lo| == |hi| && CongSeq(lo, lo') && CongSeq(hi, hi')
    ensures CongSeq(Merge(lo, hi, z), Merge(lo', hi', z))
  {
    AddCong(lo, lo', hi, hi');
    AddCong(hi, hi', lo, lo');
    ScaleCong(z, z, Sub(hi, lo), Sub(hi', lo'));
    CongAppend(Add(lo, hi), Add(lo', hi'), Scale(z, Sub(hi, lo)), Scale(z, Sub(hi', lo')));
  }

  lemma SliceCong(f: Poly, g: Poly, n: nat)
    requires CongSeq(f, g) && n <= |f|
    ensures CongSeq(f[..n], g[..n]) && CongSeq(f[n..], g[n..])
  {
  }

  lemma InvNttUnfold(f: Poly, l: nat, k: nat)
    requires |f| == Two(l + 1) && Node(l, k) && l > 0
    ensures InvNtt(f, l, k) == (NodeChildren(l, k);
      Merge(InvNtt(f[..Two(l)], l - 1, 2 * k), InvNtt(f[Two(l)..], l - 1, 2 * k + 1), Root(Mirror(k))))
  {
    NodeChildren(l, k);
  }

  lemma {:induction false} InvNttCong(f: Poly, g: Poly, l: nat, k: nat)
    requires CongSeq(f, g) && |f| == Two(l + 1) && Node(l, k)
    ensures CongSeq(InvNtt(f, l, k), InvNtt(g, l, k))
    decreases l
  {
    if l > 0 {
      InvNttCongStep(f, g, l, k);
    }
  }

  lemma {:induction false} InvNttCongStep(f: Poly, g: Poly, l: nat, k: nat)
    requires CongSeq(f, g) && |f| == |g| == Two(l + 1) && Node(l, k) && l > 0
    ensures CongSeq(InvNtt(f, l, k), InvNtt(g, l, k))
    decreases l, 0
  {
    hide *;
    NodeChildren(l, k);
    var n := Two(l);
    var f0, f1, g0, g1 := f[..n], f[n..], g[..n], g[n..];
    SliceCong(f, g, n);
    InvNttUnfold(f, l, k);
    InvNttUnfold(g, l, k);
    InvNttCong(f0, g0, l - 1, 2 * k);
    InvNttCong(f1, g1, l - 1, 2 * k + 1);
    MergeCong(InvNtt(f0, l - 1, 2 * k), InvNtt(f1, l - 1, 2 * k + 1),
              InvNtt(g0, l - 1, 2 * k), InvNtt(g1, l - 1, 2 * k + 1), Root(Mirror(k)));
  }

  lemma {:induction false} NttMulCong(a: Poly, a': Poly, b: Poly, b': Poly, l: nat, k: nat)
    requires CongSeq(a, a') && CongSeq(b, b') && |a| == |b| == Two(l + 1)
    ensures CongSeq(NttMul(a, b, l, k), NttMul(a', b', l, k))
    decreases l
  {
    if l == 0 {
      MulCong(a, a', b, b', Gamma(k), Gamma(k));
    } else {
      var n := Two(l);
      NttMulCong(a[..n], a'[..n], b[..n], b'[..n], l - 1, 2 * k);
      NttMulCong(a[n..], a'[n..], b[n..], b'[n..], l - 1, 2 * k + 1);
      CongAppend(NttMul(a[..n], b[..n], l - 1, 2 * k), NttMul(a'[..n], b'[..n], l - 1, 2 * k),
                 NttMul(a[n..], b[n..], l - 1, 2 * k + 1), NttMul(a'[n..], b'[n..], l - 1, 2 * k + 1));
    }
  }

  // ----- The transform is a ring homomorphism -----

  lemma {:induction false} SplitProduct(a: Poly, b: Poly, z: int, c: int)
    requires |a| == |b| && |a| % 2 == 0 && |a| > 0 && Cong(z * z, c)
    ensures CongSeq(Split(Mul(a, b, c), z), Mul(Split(a, z), Split(b, z), z))
  {
    CongSym(z * z, c);
    CongSeqRefl(a);
    CongSeqRefl(b);
    MulCong(a, a, b, b, c, z * z);
    SplitCong(Mul(a, b, c), Mul(a, b, z * z), z, z);
    SplitIsHomomorphism(a, b, z);
  }

  lemma NttMulHalves(a0: Poly, a1: Poly, b0: Poly, b1: Poly, l: nat, k: nat)
    requires |a0| == |a1| == |b0| == |b1| == Two(l) && l > 0
    ensures NttMul(a0 + a1, b0 + b1, l, k)
         == NttMul(a0, b0, l - 1, 2 * k) + NttMul(a1, b1, l - 1, 2 * k + 1)
  {
    var n := |a0|;
    assert (a0 + a1)[..n] == a0 && (a0 + a1)[n..] == a1;
    assert (b0 + b1)[..n] == b0 && (b0 + b1)[n..] == b1;
  }

  lemma {:induction false} NttOfProduct(a: Poly, b: Poly, l: nat, k: nat)
    requires |a| == |b| == Two(l + 1) && Node(l, k)
    ensures CongSeq(Ntt(Mul(a, b, Gamma(k)), l, k), NttMul(Ntt(a, l, k), Ntt(b, l, k), l, k))
    decreases l, 2
  {
    if l == 0 {
      CongSeqRefl(Mul(a, b, Gamma(k)));
    } else {
      NttOfProductStep(a, b, l, k);
    }
  }

  lemma NttUnfold(f: Poly, l: nat, k: nat)
    requires |f| == Two(l + 1) && l > 0
    ensures Ntt(f, l, k)
         == Ntt(Split(f, Root(k)), l - 1, 2 * k) + Ntt(Split(f, -Root(k)), l - 1, 2 * k + 1)
  {
  }

  lemma GammaChildren(k: nat)
    requires 1 <= k < 128
    ensures Gamma(2 * k) == Root(k) && Gamma(2 * k + 1) == -Root(k)
    ensures Cong(Root(k) * Root(k), Gamma(k)) && Cong((-Root(k)) * (-Root(k)), Gamma(k))
  {
    hide Cong, Root;
    RootSquared(k);
    assert (-Root(k)) * (-Root(k)) == Root(k) * Root(k);
  }

  lemma {:induction false} NttOfProductStep(a: Poly, b: Poly, l: nat, k: nat)
    requires |a| == |b| == Two(l + 1) && Node(l, k) && l > 0
    ensures CongSeq(Ntt(Mul(a, b, Gamma(k)), l, k), NttMul(Ntt(a, l, k), Ntt(b, l, k), l, k))
    decreases l, 1
  {
    hide *;
    var z, p := Root(k), Mul(a, b, Gamma(k));
    NodeChildren(l, k);
    GammaChildren(k);
    NttUnfold(a, l, k);
    NttUnfold(b, l, k);
    NttUnfold(p, l, k);
    HalfOfProduct(a, b, l, k, z, 2 * k);
    HalfOfProduct(a, b, l, k, -z, 2 * k + 1);
    var a0, a1 := Ntt(Split(a, z), l - 1, 2 * k), Ntt(Split(a, -z), l - 1, 2 * k + 1);
    var b0, b1 := Ntt(Split(b, z), l - 1, 2 * k), Ntt(Split(b, -z), l - 1, 2 * k + 1);
    NttMulHalves(a0, a1, b0, b1, l, k);
    CongAppend(Ntt(Split(p, z), l - 1, 2 * k), NttMul(a0, b0, l - 1, 2 * k),
               Ntt(Split(p, -z), l - 1, 2 * k + 1), NttMul(a1, b1, l - 1, 2 * k + 1));
  }

  // One child of node k
  lemma {:induction false} HalfOfProduct(a: Poly, b: Poly, l: nat, k: nat, z: int, c: nat)
    requires |a| == |b| == Two(l + 1) == 2 * Two(l) && l > 0 && Node(l - 1, c)
    requires Cong(z * z, Gamma(k)) && Gamma(c) == z
    ensures CongSeq(Ntt(Split(Mul(a, b, Gamma(k)), z), l - 1, c),
                    NttMul(Ntt(Split(a, z), l - 1, c), Ntt(Split(b, z), l - 1, c), l - 1, c))
    decreases l, 0
  {
    hide *;
    var p, sa, sb := Split(Mul(a, b, Gamma(k)), z), Split(a, z), Split(b, z);
    SplitProduct(a, b, z, Gamma(k));
    NttOfProduct(sa, sb, l - 1, c);
    NttCong(p, Mul(sa, sb, z), l - 1, c);
    CongSeqTrans(Ntt(p, l - 1, c), Ntt(Mul(sa, sb, z), l - 1, c),
                 NttMul(Ntt(sa, l - 1, c), Ntt(sb, l - 1, c), l - 1, c));
  }

  // ----- The inverse tree undoes the transform, up to the number of leaves -----

  // Scaling passes through the inverse tree
  lemma MergeScale(x: int, lo: Poly, hi: Poly, z: int)
    requires |lo| == |hi|
    ensures Merge(Scale(x, lo), Scale(x, hi), z) == Scale(x, Merge(lo, hi, z))
  {
    ScaleAdd(x, lo, hi);
    assert Sub(Scale(x, hi), Scale(x, lo)) == Scale(x, Sub(hi, lo)) by {
      forall i | 0 <= i < |lo|
        ensures Sub(Scale(x, hi), Scale(x, lo))[i] == Scale(x, Sub(hi, lo))[i]
      {
        assert x * (hi[i] - lo[i]) == x * hi[i] - x * lo[i];
      }
    }
    ScaleSwap(z, x, Sub(hi, lo));
  }

  lemma InvNttHalves(f0: Poly, f1: Poly, l: nat, k: nat)
    requires |f0| == |f1| == Two(l) && l > 0 && Node(l, k)
    ensures InvNtt(f0 + f1, l, k)
         == (NodeChildren(l, k); Merge(InvNtt(f0, l - 1, 2 * k), InvNtt(f1, l - 1, 2 * k + 1), Root(Mirror(k))))
  {
    var n := |f0|;
    NodeChildren(l, k);
    assert (f0 + f1)[..n] == f0 && (f0 + f1)[n..] == f1;
  }

  lemma {:induction false} InvNttScale(x: int, f: Poly, l: nat, k: nat)
    requires |f| == Two(l + 1) && Node(l, k)
    ensures InvNtt(Scale(x, f), l, k) == Scale(x, InvNtt(f, l, k))
    decreases l, 1
  {
    if l > 0 {
      InvNttScaleStep(x, f, l, k);
    }
  }

  lemma ScaleAppend(x: int, f: Poly, n: nat)
    requires n <= |f|
    ensures f == f[..n] + f[n..] && Scale(x, f) == Scale(x, f[..n]) + Scale(x, f[n..])
  {
  }

  lemma {:induction false} InvNttScaleStep(x: int, f: Poly, l: nat, k: nat)
    requires |f| == Two(l + 1) && Node(l, k) && l > 0
    ensures InvNtt(Scale(x, f), l, k) == Scale(x, InvNtt(f, l, k))
    decreases l, 0
  {
    hide *;
    NodeChildren(l, k);
    var f0, f1 := f[..Two(l)], f[Two(l)..];
    ScaleAppend(x, f, Two(l));
    InvNttScale(x, f0, l - 1, 2 * k);
    InvNttScale(x, f1, l - 1, 2 * k + 1);
    InvNttHalves(f0, f1, l, k);
    InvNttHalves(Scale(x, f0), Scale(x, f1), l, k);
    MergeScale(x, InvNtt(f0, l - 1, 2 * k), InvNtt(f1, l - 1, 2 * k + 1), Root(Mirror(k)));
  }

  lemma MergeAt(u: int, v: int, z: int, y: int)
    requires Cong(z * y, -1)
    ensures (u + z * v) + (u + -z * v) == 2 * u
    ensures Cong(y * ((u + -z * v) - (u + z * v)), 2 * v)
  {
    var p := z * v;
    assert -z * v == -p;
    CongMul(-2 * v, -2 * v, z * y, -1);
    calc {
      y * ((u + -z * v) - (u + z * v));
      y * (-2 * p);
      (-2 * v) * (z * y);
    }
  }

  lemma {:induction false} MergeOfSplit(f: Poly, z: int, y: int)
    requires |f| % 2 == 0 && Cong(z * y, -1)
    ensures CongSeq(Merge(Split(f, z), Split(f, -z), y), Scale(2, f))
  {
    var n := |f| / 2;
    var s, d := Split(f, z), Split(f, -z);
    forall i | 0 <= i < |f| ensures Cong(Merge(s, d, y)[i], 2 * f[i]) {
      if i < n {
        MergeAt(f[i], f[n + i], z, y);
        assert Merge(s, d, y)[i] == s[i] + d[i];
      } else {
        MergeAt(f[i - n], f[i], z, y);
        assert Merge(s, d, y)[i] == y * (d[i - n] - s[i - n]);
      }
    }
  }

  lemma {:induction false} InvNttOfNtt(f: Poly, l: nat, k: nat)
    requires |f| == Two(l + 1) && Node(l, k)
    ensures CongSeq(InvNtt(Ntt(f, l, k), l, k), Scale(Two(l), f))
    decreases l, 1
  {
    if l == 0 {
      assert Scale(1, f) == f;
      CongSeqRefl(f);
    } else {
      InvNttOfNttStep(f, l, k);
    }
  }

  lemma {:induction false} InvNttOfNttStep(f: Poly, l: nat, k: nat)
    requires |f| == Two(l + 1) && Node(l, k) && l > 0
    ensures CongSeq(InvNtt(Ntt(f, l, k), l, k), Scale(Two(l), f))
    decreases l, 0
  {
    hide *;
    NodeChildren(l, k);
    var z := Root(k);
    NttUnfold(f, l, k);
    InvNttOfNtt(Split(f, z), l - 1, 2 * k);
    InvNttOfNtt(Split(f, -z), l - 1, 2 * k + 1);
    var t0, t1 := Ntt(Split(f, z), l - 1, 2 * k), Ntt(Split(f, -z), l - 1, 2 * k + 1);
    InvNttHalves(t0, t1, l, k);
    UndoStep(f, Two(l - 1), k, InvNtt(t0, l - 1, 2 * k), InvNtt(t1, l - 1, 2 * k + 1));
  }

  lemma {:induction false} UndoStep(f: Poly, h: int, k: nat, lo: Poly, hi: Poly)
    requires 1 <= k < 128 && |f| % 2 == 0
    requires CongSeq(lo, Scale(h, Split(f, Root(k)))) && CongSeq(hi, Scale(h, Split(f, -Root(k))))
    ensures CongSeq(Merge(lo, hi, Root(Mirror(k))), Scale(2 * h, f))
  {
    hide Cong, Root, Mirror, Merge, Split, Scale;
    var y := Root(Mirror(k));
    var s0, s1 := Split(f, Root(k)), Split(f, -Root(k));
    MergeCong(lo, hi, Scale(h, s0), Scale(h, s1), y);
    MergeScale(h, s0, s1, y);
    RootMirror(k);
    MergeOfSplit(f, Root(k), y);
    ScaleCong(h, h, Merge(s0, s1, y), Scale(2, f));
    ScaleScale(h, 2, f);
    CongSeqTrans(Merge(lo, hi, y), Scale(h, Merge(s0, s1, y)), Scale(h, Scale(2, f)));
  }

  // ----- and the transform undoes the inverse tree -----

  lemma {:induction false} NttScale(x: int, f: Poly, l: nat, k: nat)
    requires |f| == Two(l + 1)
    ensures Ntt(Scale(x, f), l, k) == Scale(x, Ntt(f, l, k))
    decreases l
  {
    if l > 0 {
      NttScaleStep(x, f, l, k);
    }
  }

  lemma ScaleConcat(x: int, f: Poly, g: Poly)
    ensures Scale(x, f + g) == Scale(x, f) + Scale(x, g)
  {
  }

  lemma EvenTwo(l: nat)
    ensures Two(l + 1) == 2 * Two(l)
  {
  }

  lemma {:induction false} NttScaleStep(x: int, f: Poly, l: nat, k: nat)
    requires |f| == Two(l + 1) && l > 0
    ensures Ntt(Scale(x, f), l, k) == Scale(x, Ntt(f, l, k))
    decreases l, 0
  {
    hide *;
    EvenTwo(l);
    var z := Root(k);
    NttUnfold(f, l, k);
    NttUnfold(Scale(x, f), l, k);
    SplitScale(x, f, z);
    SplitScale(x, f, -z);
    NttScale(x, Split(f, z), l - 1, 2 * k);
    NttScale(x, Split(f, -z), l - 1, 2 * k + 1);
    ScaleConcat(x, Ntt(Split(f, z), l - 1, 2 * k), Ntt(Split(f, -z), l - 1, 2 * k + 1));
  }

  lemma SplitMergeAt(u: int, v: int, z: int, y: int)
    requires Cong(z * y, -1)
    ensures Cong((u + v) + z * (y * (v - u)), 2 * u)
    ensures Cong((u + v) + -z * (y * (v - u)), 2 * v)
  {
    var d := v - u;
    CongRefl(d);
    CongMul(z * y, -1, d, d);
    CongRefl(u + v);
    CongAdd(u + v, u + v, z * y * d, -1 * d);
    assert z * (y * d) == z * y * d && -z * (y * d) == -(z * y * d);
  }

  lemma SplitMergeTerms(lo: Poly, hi: Poly, z: int, y: int, i: nat)
    requires |lo| == |hi| && i < |lo|
    ensures Split(Merge(lo, hi, y), z)[i] == (lo[i] + hi[i]) + z * (y * (hi[i] - lo[i]))
  {
  }

  lemma SplitOfMerge(lo: Poly, hi: Poly, z: int, y: int)
    requires |lo| == |hi| && Cong(z * y, -1)
    ensures CongSeq(Split(Merge(lo, hi, y), z), Scale(2, lo))
    ensures CongSeq(Split(Merge(lo, hi, y), -z), Scale(2, hi))
  {
    hide Cong, Split, Merge;
    var n, m := |lo|, Merge(lo, hi, y);
    forall i | 0 <= i < n
      ensures Cong(Split(m, z)[i], 2 * lo[i]) && Cong(Split(m, -z)[i], 2 * hi[i])
    {
      SplitMergeAt(lo[i], hi[i], z, y);
      SplitMergeTerms(lo, hi, z, y, i);
      SplitMergeTerms(lo, hi, -z, y, i);
    }
  }

  lemma {:induction false} NttOfInvNtt(f: Poly, l: nat, k: nat)
    requires |f| == Two(l + 1) && Node(l, k)
    ensures CongSeq(Ntt(InvNtt(f, l, k), l, k), Scale(Two(l), f))
    decreases l, 2
  {
    if l == 0 {
      assert Scale(1, f) == f;
      CongSeqRefl(f);
    } else {
      NttOfInvNttStep(f, l, k);
    }
  }

  lemma {:induction false} NttOfInvNttStep(f: Poly, l: nat, k: nat)
    requires |f| == Two(l + 1) && Node(l, k) && l > 0
    ensures CongSeq(Ntt(InvNtt(f, l, k), l, k), Scale(Two(l), f))
    decreases l, 1
  {
    hide *;
    NodeChildren(l, k);
    RootMirror(k);
    var f0, f1, z := f[..Two(l)], f[Two(l)..], Root(k);
    var lo, hi := InvNtt(f0, l - 1, 2 * k), InvNtt(f1, l - 1, 2 * k + 1);
    ScaleAppend(Two(l), f, Two(l));
    InvNttHalves(f0, f1, l, k);
    var m := Merge(lo, hi, Root(Mirror(k)));
    NttUnfold(m, l, k);
    SplitOfMerge(lo, hi, z, Root(Mirror(k)));
    RedoHalf(f0, lo, Split(m, z), l - 1, 2 * k);
    RedoHalf(f1, hi, Split(m, -z), l - 1, 2 * k + 1);
    CongAppend(Ntt(Split(m, z), l - 1, 2 * k), Scale(Two(l), f0),
               Ntt(Split(m, -z), l - 1, 2 * k + 1), Scale(Two(l), f1));
  }

  lemma {:induction false} RedoHalf(f: Poly, g: Poly, s: Poly, l: nat, k: nat)
    requires |f| == |g| == |s| == Two(l + 1) && Node(l, k)
    requires g == InvNtt(f, l, k) && CongSeq(s, Scale(2, g))
    ensures CongSeq(Ntt(s, l, k), Scale(Two(l + 1), f))
    decreases l, 3
  {
    hide *;
    EvenTwo(l);
    NttOfInvNtt(f, l, k);
    NttCong(s, Scale(2, g), l, k);
    NttScale(2, g, l, k);
    CongRefl(2);
    ScaleCong(2, 2, Ntt(g, l, k), Scale(Two(l), f));
    ScaleScale(2, Two(l), f);
    CongSeqTrans(Ntt(s, l, k), Scale(2, Ntt(g, l, k)), Scale(2, Scale(Two(l), f)));
  }

  // ----- Main law: the inverse of a transform-domain product is the negacyclic product -----

  lemma TopNode()
    ensures Two(BITS) == 128 && Two(BITS + 1) == 256 && Node(BITS, 1) && Gamma(1) == -1
  {
  }

  lemma {:induction false} ProductThroughTransform(a: Poly, b: Poly)
    requires |a| == |b| == 256
    ensures |a| == Two(BITS + 1) && Node(BITS, 1)
    ensures CongSeq(InvNtt(NttMul(Ntt(a, BITS, 1), Ntt(b, BITS, 1), BITS, 1), BITS, 1),
                    Scale(128, Mul(a, b, -1)))
  {
    hide *;
    TopNode();
    NttOfProduct(a, b, BITS, 1);
    var p := Mul(a, b, -1);
    InvNttOfNtt(p, BITS, 1);
    var t := NttMul(Ntt(a, BITS, 1), Ntt(b, BITS, 1), BITS, 1);
    CongSeqSym(Ntt(p, BITS, 1), t);
    InvNttCong(t, Ntt(p, BITS, 1), BITS, 1);
    CongSeqTrans(InvNtt(t, BITS, 1), InvNtt(Ntt(p, BITS, 1), BITS, 1), Scale(128, p));
  }
}
