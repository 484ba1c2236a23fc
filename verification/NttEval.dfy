/** What the transform computes, coefficient by coefficient (section 4.3 of FIPS 203): pair i of NTT(f) holds f modulo
    X^2 - 17^(2 BitRev7(i) + 1), so its two entries are the even and the odd half of f evaluated at that power. */
module NttEval {
  import opened ModQ
  import opened Ring
  import opened Zetas
  import opened NttSpec
  import opened Kpke

  // f[b] + f[b + 2] g + f[b + 4] g^2 + ...
  function Half(f: Poly, b: nat, g: int): int
    requires b < 2
    decreases |f|
  {
    if |f| < 2 then 0 else f[b] + g * Half(f[2..], b, g)
  }

  function Pow(g: int, e: nat): int {
    if e == 0 then 1 else g * Pow(g, e - 1)
  }

  // ----- Halves of sums and of longer polynomials -----

  function Mixed(a: Poly, c: Poly, z: int): (r: Poly)
    requires |a| == |c|
    ensures |r| == |a|
  {
    seq(|a|, i requires 0 <= i < |a| => a[i] + z * c[i])
  }

  lemma {:induction false} HalfMixed(a: Poly, c: Poly, z: int, b: nat, g: int)
    requires |a| == |c| && b < 2
    ensures Half(Mixed(a, c, z), b, g) == Half(a, b, g) + z * Half(c, b, g)
    decreases |a|
  {
    if |a| >= 2 {
      HalfMixed(a[2..], c[2..], z, b, g);
      assert Mixed(a, c, z)[2..] == Mixed(a[2..], c[2..], z);
      MixedStep(a[b], c[b], z, g, Half(a[2..], b, g), Half(c[2..], b, g));
    }
  }

  lemma MixedStep(x: int, y: int, z: int, g: int, s: int, t: int)
    ensures (x + z * y) + g * (s + z * t) == (x + g * s) + z * (y + g * t)
  {
    assert z * (y + g * t) == z * y + z * (g * t);
    assert g * (s + z * t) == g * s + g * (z * t);
    assert g * (z * t) == z * (g * t);
  }

  lemma SplitIsMixed(f: Poly, n: nat, z: int)
    requires |f| == 2 * n
    ensures Split(f, z) == Mixed(f[..n], f[n..], z)
  {
  }

  lemma {:induction false} HalfAppend(f: Poly, h: Poly, m: nat, b: nat, g: int)
    requires |f| == 2 * m && b < 2
    ensures Half(f + h, b, g) == Half(f, b, g) + Pow(g, m) * Half(h, b, g)
    decreases m
  {
    if m == 0 {
      assert f + h == h;
    } else {
      HalfAppend(f[2..], h, m - 1, b, g);
      assert (f + h)[2..] == f[2..] + h && (f + h)[b] == f[b];
      var s, p, t := Half(f[2..], b, g), Pow(g, m - 1), Half(h, b, g);
      assert g * (s + p * t) == g * s + (g * p) * t;
    }
  }

  // ----- Powers of a leaf -----

  lemma {:induction false} PowSquare(g: int, e: nat)
    ensures Pow(g, 2 * e) == Pow(g, e) * Pow(g, e)
  {
    PowSum(g, e, e);
  }

  lemma {:induction false} PowSum(g: int, d: nat, e: nat)
    ensures Pow(g, d + e) == Pow(g, d) * Pow(g, e)
    decreases d
  {
    if d > 0 {
      PowSum(g, d - 1, e);
      var p, q := Pow(g, d - 1), Pow(g, e);
      assert g * (p * q) == (g * p) * q;
    }
  }

  // Leaf i below node k, as a leaf of the left or the right child
  function Leaf(l: nat, k: nat, i: nat): nat {
    Two(l) * k + i
  }

  lemma LeafOfChild(l: nat, k: nat, i: nat)
    requires l > 0 && i < Two(l)
    ensures i < Two(l - 1) ==> Leaf(l, k, i) == Leaf(l - 1, 2 * k, i)
    ensures i >= Two(l - 1) ==> i - Two(l - 1) < Two(l - 1) && Leaf(l, k, i) == Leaf(l - 1, 2 * k + 1, i - Two(l - 1))
  {
    var n := Two(l - 1);
    assert Two(l) == 2 * n;
    assert (2 * n) * k == n * (2 * k) && n * (2 * k + 1) == n * (2 * k) + n;
  }

  lemma {:induction false} LeafPower(l: nat, k: nat, i: nat)
    requires Node(l, k) && i < Two(l)
    ensures Cong(Pow(Gamma(Leaf(l, k, i)), Two(l)), Gamma(k))
    decreases l
  {
    hide Cong, Gamma, Node, Leaf, Pow;
    if l == 0 {
      LeafZero(k, i);
      CongRefl(Gamma(k));
    } else {
      NodeChildren(l, k);
      LeafOfChild(l, k, i);
      var g := Gamma(Leaf(l, k, i));
      GammaChildren(k);
      PowSquare(g, Two(l - 1));
      if i < Two(l - 1) {
        LeafPower(l - 1, 2 * k, i);
        SquareCong(Pow(g, Two(l - 1)), Gamma(2 * k), Gamma(k));
      } else {
        LeafPower(l - 1, 2 * k + 1, i - Two(l - 1));
        SquareCong(Pow(g, Two(l - 1)), Gamma(2 * k + 1), Gamma(k));
      }
    }
  }

  lemma LeafZero(k: nat, i: nat)
    requires i < Two(0)
    ensures i == 0 && Leaf(0, k, i) == k && Pow(Gamma(k), Two(0)) == Gamma(k)
  {
    assert Pow(Gamma(k), 1) == Gamma(k) * Pow(Gamma(k), 0);
  }

  lemma SquareCong(x: int, y: int, c: int)
    requires Cong(x, y) && Cong(y * y, c)
    ensures Cong(x * x, c)
  {
    hide Cong;
    CongMul(x, y, x, y);
    CongTrans(x * x, y * y, c);
  }

  // ----- The transform -----

  lemma {:induction false} HalfOfNode(f: Poly, n: nat, m: nat, z: int, b: nat, g: int)
    requires |f| == 2 * n && n == 2 * m && b < 2 && Cong(Pow(g, m), z)
    ensures Cong(Half(Split(f, z), b, g), Half(f, b, g))
  {
    hide Cong, Half, Pow, Split, Mixed;
    SplitIsMixed(f, n, z);
    HalfMixed(f[..n], f[n..], z, b, g);
    HalfAppend(f[..n], f[n..], m, b, g);
    assert f[..n] + f[n..] == f;
    var s, t := Half(f[..n], b, g), Half(f[n..], b, g);
    CongSym(Pow(g, m), z);
    CongRefl(t);
    CongRefl(s);
    CongMul(z, Pow(g, m), t, t);
    CongAdd(s, s, z * t, Pow(g, m) * t);
  }

  lemma NttAt(f: Poly, l: nat, k: nat, j: nat)
    requires |f| == Two(l + 1) && l > 0 && j < Two(l + 1)
    ensures |Split(f, Root(k))| == Two(l) && |Split(f, -Root(k))| == Two(l)
    ensures Ntt(f, l, k)[j] == if j < Two(l) then Ntt(Split(f, Root(k)), l - 1, 2 * k)[j]
                               else Ntt(Split(f, -Root(k)), l - 1, 2 * k + 1)[j - Two(l)]
  {
    hide Root, Split;
    NttUnfold(f, l, k);
    EvenTwo(l);
  }

  lemma {:induction false} NttIsHalf(f: Poly, l: nat, k: nat, i: nat, b: nat)
    requires |f| == Two(l + 1) && Node(l, k) && i < Two(l) && b < 2
    ensures 2 * i + b < Two(l + 1) && Cong(Ntt(f, l, k)[2 * i + b], Half(f, b, Gamma(Leaf(l, k, i))))
    decreases l
  {
    hide Cong, Gamma, Node, Leaf, Half, Root, Split, Pow;
    EvenTwo(l);
    if l == 0 {
      LeafZero(k, i);
      Pair(f, b, Gamma(k));
      CongRefl(f[b]);
    } else {
      NodeChildren(l, k);
      LeafOfChild(l, k, i);
      GammaChildren(k);
      NttAt(f, l, k, 2 * i + b);
      var g, n := Gamma(Leaf(l, k, i)), Two(l - 1);
      if i < n {
        LeafPower(l - 1, 2 * k, i);
        NttIsHalf(Split(f, Root(k)), l - 1, 2 * k, i, b);
        HalfOfNode(f, Two(l), n, Root(k), b, g);
        CongTrans(Ntt(f, l, k)[2 * i + b], Half(Split(f, Root(k)), b, g), Half(f, b, g));
      } else {
        LeafPower(l - 1, 2 * k + 1, i - n);
        NttIsHalf(Split(f, -Root(k)), l - 1, 2 * k + 1, i - n, b);
        HalfOfNode(f, Two(l), n, -Root(k), b, g);
        CongTrans(Ntt(f, l, k)[2 * i + b], Half(Split(f, -Root(k)), b, g), Half(f, b, g));
      }
    }
  }

  lemma Pair(f: Poly, b: nat, g: int)
    requires |f| == Two(0 + 1) && b < 2
    ensures |f| == 2 && Ntt(f, 0, 0) == f && Half(f, b, g) == f[b]
  {
    assert |f[2..]| < 2;
  }

  // ----- The leaves in terms of 17 -----

  lemma {:induction false} LeafRoot(i: nat)
    requires i < 128
    ensures Cong(Gamma(128 + i), Pow17(2 * BitRev(i, 7) + 1))
  {
    hide Cong, Pow17, BitRev;
    var h := i / 2;
    Sixes();
    BitRevTop(6, h, 7);
    BitRevWiden(h, 6);
    BitRevStep(i, h);
    assert (128 + i) / 2 == 64 + h;
    var e := 1 + BitRev(h, 7);
    if i % 2 == 0 {
      CongRefl(Pow17(e));
    } else {
      PowAdd(128, e);
      PowMinusOne();
      CongRefl(Pow17(e));
      CongMul(Pow17(128), -1, Pow17(e), Pow17(e));
      CongSym(Pow17(128 + e), -Pow17(e));
    }
  }

  lemma Sixes()
    ensures Two(6) == 64 && Two(0) == 1 && BITS == 7
  {
  }

  lemma BitRevStep(i: nat, h: nat)
    requires h == i / 2
    ensures BitRev(i, 7) == (if i % 2 == 1 then 64 else 0) + BitRev(h, 6)
  {
    Sixes();
  }

  lemma {:induction false} HalfCong(f: Poly, b: nat, g: int, h: int)
    requires b < 2 && Cong(g, h)
    ensures Cong(Half(f, b, g), Half(f, b, h))
    decreases |f|
  {
    hide Cong;
    if |f| < 2 {
      CongRefl(0);
    } else {
      HalfCong(f[2..], b, g, h);
      CongMul(g, h, Half(f[2..], b, g), Half(f[2..], b, h));
      CongRefl(f[b]);
      CongAdd(f[b], f[b], g * Half(f[2..], b, g), h * Half(f[2..], b, h));
    }
  }

  // Entries 2 i and 2 i + 1 of NTT(f) are the even and the odd half of f at 17^(2 BitRev7(i) + 1)
  lemma {:induction false} HatIsEvaluation(f: Elem, i: nat, b: nat)
    requires i < 128 && b < 2
    ensures Cong(Hat(f)[2 * i + b], Half(f, b, Pow17(2 * BitRev(i, 7) + 1)))
  {
    hide Cong, Gamma, Half, Pow17, BitRev, Ntt, Node;
    TopNode();
    NttIsHalf(f, BITS, 1, i, b);
    assert Leaf(BITS, 1, i) == 128 + i;
    LeafRoot(i);
    HalfCong(f, b, Gamma(128 + i), Pow17(2 * BitRev(i, 7) + 1));
    CongTrans(Hat(f)[2 * i + b], Half(f, b, Gamma(128 + i)), Half(f, b, Pow17(2 * BitRev(i, 7) + 1)));
  }
}
