/** The quotient rings Z[X]/(X^n - c) on coefficient sequences, and the map that splits
    Z[X]/(X^2n - z^2) into Z[X]/(X^n - z) and Z[X]/(X^n + z). All identities are exact over
    the integers; congruence modulo q enters only where the zetas do. */
module Ring {
  import opened ModQ

  type Poly = seq<int>

  function Add(a: Poly, b: Poly): (r: Poly)
    requires |a| == |b|
    ensures |r| == |a|
  {
    seq(|a|, i requires 0 <= i < |a| => a[i] + b[i])
  }

  function Sub(a: Poly, b: Poly): (r: Poly)
    requires |a| == |b|
    ensures |r| == |a|
  {
    seq(|a|, i requires 0 <= i < |a| => a[i] - b[i])
  }

  function Scale(c: int, a: Poly): (r: Poly)
    ensures |r| == |a|
  {
    seq(|a|, i requires 0 <= i < |a| => c * a[i])
  }

  function Zero(n: nat): (r: Poly)
    ensures |r| == n
  {
    seq(n, i => 0)
  }

  // Multiplication by X in Z[X]/(X^n - c)
  function Rot(b: Poly, c: int): (r: Poly)
    requires |b| > 0
    ensures |r| == |b|
  {
    [c * b[|b| - 1]] + b[..|b| - 1]
  }

  // The polynomial a (of any length) times b in Z[X]/(X^n - c), by Horner's rule
  function Mul(a: Poly, b: Poly, c: int): (r: Poly)
    requires |b| > 0
    ensures |r| == |b|
  {
    if a == [] then Zero(|b|)
    else Add(Scale(a[0], b), Rot(Mul(a[1..], b, c), c))
  }

  // ----- Schoolbook reference: coefficient k of the product as a plain sum -----

  // The coefficient of X^k in X^i * b modulo X^n - c
  function ShiftedCoeff(b: Poly, c: int, k: nat, i: nat): int
    requires k < |b| && i < |b|
  {
    if i <= k then b[k - i] else c * b[|b| + k - i]
  }

  function SchoolSum(a: Poly, b: Poly, c: int, k: nat, i: nat): int
    requires k < |b| && i <= |a| <= |b|
    decreases |a| - i
  {
    if i == |a| then 0 else a[i] * ShiftedCoeff(b, c, k, i) + SchoolSum(a, b, c, k, i + 1)
  }

  lemma {:induction false} SchoolSumShift(a: Poly, b: Poly, c: int, k: nat, i: nat)
    requires 0 < i <= |a| <= |b| && k < |b|
    ensures k > 0 ==> SchoolSum(a, b, c, k, i) == SchoolSum(a[1..], b, c, k - 1, i - 1)
    ensures k == 0 ==> SchoolSum(a, b, c, 0, i) == c * SchoolSum(a[1..], b, c, |b| - 1, i - 1)
    decreases |a| - i
  {
    if i < |a| {
      SchoolSumShift(a, b, c, k, i + 1);
      if k == 0 {
        var x, y := a[i], b[|b| - i];
        assert ShiftedCoeff(b, c, |b| - 1, i - 1) == y;
        assert ShiftedCoeff(b, c, 0, i) == c * y;
        assert x * (c * y) == c * (x * y);
        var s := SchoolSum(a[1..], b, c, |b| - 1, i);
        assert c * (x * y + s) == c * (x * y) + c * s;
      }
    }
  }

  lemma {:induction false} MulIsSchoolbook(a: Poly, b: Poly, c: int, k: nat)
    requires 0 < |b| && |a| <= |b| && k < |b|
    ensures Mul(a, b, c)[k] == SchoolSum(a, b, c, k, 0)
  {
    if a != [] {
      var k' := if k == 0 then |b| - 1 else k - 1;
      MulIsSchoolbook(a[1..], b, c, k');
      SchoolSumShift(a, b, c, k, 1);
    }
  }

  // ----- Pointwise identities -----

  lemma AddSwap(a: Poly, b: Poly, c: Poly, d: Poly)
    requires |a| == |b| == |c| == |d|
    ensures Add(Add(a, b), Add(c, d)) == Add(Add(a, c), Add(b, d))
  {
  }

  lemma AddAssoc(a: Poly, b: Poly, c: Poly)
    requires |a| == |b| == |c|
    ensures Add(Add(a, b), c) == Add(a, Add(b, c))
  {
  }

  lemma ScaleAdd(x: int, a: Poly, b: Poly)
    requires |a| == |b|
    ensures Scale(x, Add(a, b)) == Add(Scale(x, a), Scale(x, b))
  {
    forall i | 0 <= i < |a| ensures x * (a[i] + b[i]) == x * a[i] + x * b[i] { }
  }

  lemma ScaleSum(x: int, y: int, a: Poly)
    ensures Scale(x + y, a) == Add(Scale(x, a), Scale(y, a))
  {
    forall i | 0 <= i < |a| ensures (x + y) * a[i] == x * a[i] + y * a[i] { }
  }

  lemma ScaleScale(x: int, y: int, a: Poly)
    ensures Scale(x, Scale(y, a)) == Scale(x * y, a)
  {
    forall i | 0 <= i < |a| ensures x * (y * a[i]) == (x * y) * a[i] { }
  }

  lemma ScaleSwap(x: int, y: int, a: Poly)
    ensures Scale(x, Scale(y, a)) == Scale(y, Scale(x, a))
  {
    ScaleScale(x, y, a);
    ScaleScale(y, x, a);
  }

  lemma RotAdd(a: Poly, b: Poly, c: int)
    requires |a| == |b| > 0
    ensures Rot(Add(a, b), c) == Add(Rot(a, c), Rot(b, c))
  {
    var n := |a| - 1;
    assert c * (a[n] + b[n]) == c * a[n] + c * b[n];
  }

  lemma RotScale(x: int, a: Poly, c: int)
    requires |a| > 0
    ensures Rot(Scale(x, a), c) == Scale(x, Rot(a, c))
  {
    var n := |a| - 1;
    assert c * (x * a[n]) == x * (c * a[n]);
  }

  // ----- Mul is linear in each factor -----

  lemma {:induction false} MulAddLeft(a: Poly, a': Poly, b: Poly, c: int)
    requires |a| == |a'| && |b| > 0
    ensures Mul(Add(a, a'), b, c) == Add(Mul(a, b, c), Mul(a', b, c))
  {
    if a == [] {
      assert Add(Zero(|b|), Zero(|b|)) == Zero(|b|);
    } else {
      var m, m' := Mul(a[1..], b, c), Mul(a'[1..], b, c);
      calc {
        Mul(Add(a, a'), b, c);
        { assert Add(a, a')[1..] == Add(a[1..], a'[1..]); MulAddLeft(a[1..], a'[1..], b, c); }
        Add(Scale(a[0] + a'[0], b), Rot(Add(m, m'), c));
        { ScaleSum(a[0], a'[0], b); RotAdd(m, m', c); }
        Add(Add(Scale(a[0], b), Scale(a'[0], b)), Add(Rot(m, c), Rot(m', c)));
        { AddSwap(Scale(a[0], b), Scale(a'[0], b), Rot(m, c), Rot(m', c)); }
        Add(Mul(a, b, c), Mul(a', b, c));
      }
    }
  }

  lemma {:induction false} MulScaleLeft(x: int, a: Poly, b: Poly, c: int)
    requires |b| > 0
    ensures Mul(Scale(x, a), b, c) == Scale(x, Mul(a, b, c))
  {
    if a == [] {
      assert Scale(x, Zero(|b|)) == Zero(|b|);
    } else {
      var m := Mul(a[1..], b, c);
      calc {
        Mul(Scale(x, a), b, c);
        { assert Scale(x, a)[1..] == Scale(x, a[1..]); MulScaleLeft(x, a[1..], b, c); }
        Add(Scale(x * a[0], b), Rot(Scale(x, m), c));
        { ScaleScale(x, a[0], b); RotScale(x, m, c); }
        Add(Scale(x, Scale(a[0], b)), Scale(x, Rot(m, c)));
        { ScaleAdd(x, Scale(a[0], b), Rot(m, c)); }
        Scale(x, Mul(a, b, c));
      }
    }
  }

  lemma {:induction false} MulAddRight(a: Poly, b: Poly, b': Poly, c: int)
    requires |b| == |b'| > 0
    ensures Mul(a, Add(b, b'), c) == Add(Mul(a, b, c), Mul(a, b', c))
  {
    if a == [] {
      assert Add(Zero(|b|), Zero(|b|)) == Zero(|b|);
    } else {
      var m, m' := Mul(a[1..], b, c), Mul(a[1..], b', c);
      calc {
        Mul(a, Add(b, b'), c);
        { MulAddRight(a[1..], b, b', c); }
        Add(Scale(a[0], Add(b, b')), Rot(Add(m, m'), c));
        { ScaleAdd(a[0], b, b'); RotAdd(m, m', c); }
        Add(Add(Scale(a[0], b), Scale(a[0], b')), Add(Rot(m, c), Rot(m', c)));
        { AddSwap(Scale(a[0], b), Scale(a[0], b'), Rot(m, c), Rot(m', c)); }
        Add(Mul(a, b, c), Mul(a, b', c));
      }
    }
  }

  lemma {:induction false} MulScaleRight(x: int, a: Poly, b: Poly, c: int)
    requires |b| > 0
    ensures Mul(a, Scale(x, b), c) == Scale(x, Mul(a, b, c))
  {
    if a == [] {
      assert Scale(x, Zero(|b|)) == Zero(|b|);
    } else {
      var m := Mul(a[1..], b, c);
      calc {
        Mul(a, Scale(x, b), c);
        { MulScaleRight(x, a[1..], b, c); }
        Add(Scale(a[0], Scale(x, b)), Rot(Scale(x, m), c));
        { ScaleSwap(a[0], x, b); RotScale(x, m, c); }
        Add(Scale(x, Scale(a[0], b)), Scale(x, Rot(m, c)));
        { ScaleAdd(x, Scale(a[0], b), Rot(m, c)); }
        Scale(x, Mul(a, b, c));
      }
    }
  }

  // ----- Z[X]/(X^n - c) is commutative -----

  lemma ScaleRot(x: int, a: Poly, c: int)
    requires |a| > 0
    ensures Scale(x, Rot(a, c)) == Rot(Scale(x, a), c)
  {
    RotScale(x, a, c);
  }

  lemma {:induction false} MulRotRight(a: Poly, b: Poly, c: int)
    requires |b| > 0
    ensures Mul(a, Rot(b, c), c) == Rot(Mul(a, b, c), c)
    decreases a
  {
    if a == [] {
      assert Rot(Zero(|b|), c) == Zero(|b|);
    } else {
      MulRotRightStep(a, b, c);
    }
  }

  lemma MulUnfold(a: Poly, b: Poly, c: int)
    requires |b| > 0 && a != []
    ensures Mul(a, b, c) == Add(Scale(a[0], b), Rot(Mul(a[1..], b, c), c))
  {
  }

  lemma {:induction false} MulRotRightStep(a: Poly, b: Poly, c: int)
    requires |b| > 0 && a != []
    ensures Mul(a, Rot(b, c), c) == Rot(Mul(a, b, c), c)
    decreases a, 0
  {
    hide *;
    var m := Mul(a[1..], b, c);
    MulUnfold(a, b, c);
    MulUnfold(a, Rot(b, c), c);
    MulRotRight(a[1..], b, c);
    ScaleRot(a[0], b, c);
    RotAdd(Scale(a[0], b), Rot(m, c), c);
  }

  // Multiplications by a and by b commute
  lemma {:induction false} MulSwap(a: Poly, b: Poly, x: Poly, c: int)
    requires |x| > 0
    ensures Mul(a, Mul(b, x, c), c) == Mul(b, Mul(a, x, c), c)
    decreases a
  {
    if a == [] {
      MulZero(b, |x|, c);
    } else {
      MulSwapStep(a, b, x, c);
    }
  }

  lemma {:induction false} MulZero(b: Poly, n: nat, c: int)
    requires n > 0
    ensures Mul(b, Zero(n), c) == Zero(n)
  {
    if b != [] {
      MulZero(b[1..], n, c);
      assert Rot(Zero(n), c) == Zero(n);
      assert Scale(b[0], Zero(n)) == Zero(n);
    }
  }

  lemma {:induction false} MulSwapStep(a: Poly, b: Poly, x: Poly, c: int)
    requires |x| > 0 && a != []
    ensures Mul(a, Mul(b, x, c), c) == Mul(b, Mul(a, x, c), c)
    decreases a, 0
  {
    hide *;
    var m := Mul(a[1..], x, c);
    MulUnfold(a, x, c);
    MulUnfold(a, Mul(b, x, c), c);
    MulSwap(a[1..], b, x, c);
    MulAddRight(b, Scale(a[0], x), Rot(m, c), c);
    MulScaleRight(a[0], b, x, c);
    MulRotRight(b, m, c);
  }

  function One(n: nat): (r: Poly)
    requires n > 0
    ensures |r| == n
  {
    [1] + Zero(n - 1)
  }

  // X^k, for k < n
  lemma RotTail(t: Poly, n: nat, c: int)
    requires |t| < n
    ensures Rot(t + Zero(n - |t|), c) == [0] + t + Zero(n - |t| - 1)
  {
    assert c * 0 == 0;
  }

  lemma ScaleOne(x: int, n: nat)
    requires n > 0
    ensures Scale(x, One(n)) == [x] + Zero(n - 1)
  {
    assert x * 0 == 0 && x * 1 == x;
  }

  lemma {:induction false} MulOneTail(a: Poly, n: nat, c: int)
    requires |a| <= n && n > 0
    ensures Mul(a, One(n), c) == a + Zero(n - |a|)
    decreases a
  {
    if a == [] {
    } else {
      MulOneTail(a[1..], n, c);
      RotTail(a[1..], n, c);
      ScaleOne(a[0], n);
      assert Mul(a, One(n), c) == Add(Scale(a[0], One(n)), Rot(Mul(a[1..], One(n), c), c));
    }
  }

  lemma {:induction false} MulComm(a: Poly, b: Poly, c: int)
    requires |a| == |b| > 0
    ensures Mul(a, b, c) == Mul(b, a, c)
  {
    hide *;
    var n := |a|;
    MulByOne(a, c);
    MulByOne(b, c);
    MulSwap(a, b, One(n), c);
  }

  lemma MulByOne(a: Poly, c: int)
    requires |a| > 0
    ensures Mul(a, One(|a|), c) == a
  {
    MulOneTail(a, |a|, c);
    assert a + Zero(0) == a;
  }

  // ----- Splitting X^2n - z^2 -----

  // Remainder of b modulo X^n - z, for b of length 2n
  function Split(b: Poly, z: int): (r: Poly)
    requires |b| % 2 == 0
    ensures |r| == |b| / 2
  {
    var n := |b| / 2;
    seq(n, i requires 0 <= i < n => b[i] + z * b[n + i])
  }

  lemma SplitRot(b: Poly, z: int)
    requires |b| % 2 == 0 && |b| > 0
    ensures Split(Rot(b, z * z), z) == Rot(Split(b, z), z)
  {
    var n := |b| / 2;
    var hi, lo := b[2 * n - 1], b[n - 1];
    assert z * z * hi + z * lo == z * (lo + z * hi);
    assert Rot(b, z * z)[n] == lo;
  }

  lemma SplitAdd(a: Poly, b: Poly, z: int)
    requires |a| == |b| && |a| % 2 == 0
    ensures Split(Add(a, b), z) == Add(Split(a, z), Split(b, z))
  {
    var n := |a| / 2;
    forall i | 0 <= i < n
      ensures Split(Add(a, b), z)[i] == Split(a, z)[i] + Split(b, z)[i]
    {
      assert z * (a[n + i] + b[n + i]) == z * a[n + i] + z * b[n + i];
    }
  }

  lemma SplitScale(x: int, a: Poly, z: int)
    requires |a| % 2 == 0
    ensures Split(Scale(x, a), z) == Scale(x, Split(a, z))
  {
    var n := |a| / 2;
    forall i | 0 <= i < n
      ensures Split(Scale(x, a), z)[i] == x * Split(a, z)[i]
    {
      var u, v := a[i], a[n + i];
      assert z * (x * v) == x * (z * v);
      assert x * (u + z * v) == x * u + x * (z * v);
    }
  }

  // Split commutes with multiplication of the right factor
  lemma {:induction false} SplitMulRight(a: Poly, b: Poly, z: int)
    requires |b| % 2 == 0 && |b| > 0
    ensures Split(Mul(a, b, z * z), z) == Mul(a, Split(b, z), z)
  {
    if a == [] {
      assert Split(Zero(|b|), z) == Zero(|b| / 2);
    } else {
      var m := Mul(a[1..], b, z * z);
      calc {
        Split(Mul(a, b, z * z), z);
        Split(Add(Scale(a[0], b), Rot(m, z * z)), z);
        { SplitAdd(Scale(a[0], b), Rot(m, z * z), z); }
        Add(Split(Scale(a[0], b), z), Split(Rot(m, z * z), z));
        { SplitScale(a[0], b, z); SplitRot(m, z); SplitMulRight(a[1..], b, z); }
        Mul(a, Split(b, z), z);
      }
    }
  }

  function RotN(b: Poly, c: int, k: nat): (r: Poly)
    requires |b| > 0
    ensures |r| == |b|
  {
    if k == 0 then b else Rot(RotN(b, c, k - 1), c)
  }

  lemma {:induction false} RotNForm(b: Poly, c: int, k: nat)
    requires |b| > 0 && k <= |b|
    ensures RotN(b, c, k) == Scale(c, b[|b| - k..]) + b[..|b| - k]
  {
    if k > 0 {
      RotNForm(b, c, k - 1);
      assert b[|b| - k..] == [b[|b| - k]] + b[|b| - k + 1..];
    }
  }

  lemma {:induction false} MulAppend(a: Poly, a': Poly, b: Poly, c: int)
    requires |b| > 0
    ensures Mul(a + a', b, c) == Add(Mul(a, b, c), RotN(Mul(a', b, c), c, |a|))
  {
    if a == [] {
      assert a + a' == a';
      assert Add(Zero(|b|), Mul(a', b, c)) == Mul(a', b, c);
    } else {
      var m, m' := Mul(a[1..], b, c), RotN(Mul(a', b, c), c, |a| - 1);
      calc {
        Mul(a + a', b, c);
        { assert (a + a')[1..] == a[1..] + a'; MulAppend(a[1..], a', b, c); }
        Add(Scale(a[0], b), Rot(Add(m, m'), c));
        { RotAdd(m, m', c); }
        Add(Scale(a[0], b), Add(Rot(m, c), Rot(m', c)));
        { AddAssoc(Scale(a[0], b), Rot(m, c), Rot(m', c)); }
        Add(Mul(a, b, c), RotN(Mul(a', b, c), c, |a|));
      }
    }
  }

  lemma SplitForm(a: Poly, z: int)
    requires |a| % 2 == 0
    ensures var n := |a| / 2; a == a[..n] + a[n..] && Split(a, z) == Add(a[..n], Scale(z, a[n..]))
  {
  }

  lemma MulAppendFull(lo: Poly, hi: Poly, b: Poly, z: int)
    requires |b| > 0 && |lo| == |b|
    ensures Mul(lo + hi, b, z) == Add(Mul(lo, b, z), Scale(z, Mul(hi, b, z)))
  {
    var mh := Mul(hi, b, z);
    MulAppend(lo, hi, b, z);
    RotNForm(mh, z, |b|);
    assert RotN(mh, z, |b|) == Scale(z, mh);
  }

  // The left factor may be reduced modulo X^n - z
  lemma {:induction false} SplitMulLeft(a: Poly, b: Poly, z: int)
    requires |b| > 0 && |a| == 2 * |b|
    ensures Mul(a, b, z) == Mul(Split(a, z), b, z)
  {
    var n := |b|;
    var lo, hi := a[..n], a[n..];
    SplitForm(a, z);
    MulAppendFull(lo, hi, b, z);
    MulScaleLeft(z, hi, b, z);
    MulAddLeft(lo, Scale(z, hi), b, z);
  }

  // Reduction modulo X^n - z is a ring homomorphism from Z[X]/(X^2n - z^2)
  lemma {:induction false} SplitIsHomomorphism(a: Poly, b: Poly, z: int)
    requires |a| == |b| && |b| % 2 == 0 && |b| > 0
    ensures Split(Mul(a, b, z * z), z) == Mul(Split(a, z), Split(b, z), z)
  {
    SplitMulRight(a, b, z);
    SplitMulLeft(a, Split(b, z), z);
  }

  // ----- Congruence of polynomials -----

  ghost predicate CongSeq(a: Poly, b: Poly) {
    |a| == |b| && forall i :: 0 <= i < |a| ==> Cong(a[i], b[i])
  }

  lemma CongSeqRefl(a: Poly)
    ensures CongSeq(a, a)
  {
  }

  lemma CongSeqSym(a: Poly, b: Poly)
    requires CongSeq(a, b)
    ensures CongSeq(b, a)
  {
    forall i | 0 <= i < |a| ensures Cong(b[i], a[i]) { CongSym(a[i], b[i]); }
  }

  lemma CongSeqTrans(a: Poly, b: Poly, c: Poly)
    requires CongSeq(a, b) && CongSeq(b, c)
    ensures CongSeq(a, c)
  {
    forall i | 0 <= i < |a| ensures Cong(a[i], c[i]) { CongTrans(a[i], b[i], c[i]); }
  }

  lemma AddCong(a: Poly, a': Poly, b: Poly, b': Poly)
    requires CongSeq(a, a') && CongSeq(b, b') && |a| == |b|
    ensures CongSeq(Add(a, b), Add(a', b'))
    ensures CongSeq(Sub(a, b), Sub(a', b'))
  {
    forall i | 0 <= i < |a|
      ensures Cong(a[i] + b[i], a'[i] + b'[i]) && Cong(a[i] - b[i], a'[i] - b'[i])
    {
      CongAdd(a[i], a'[i], b[i], b'[i]);
    }
  }

  lemma ScaleCong(c: int, c': int, a: Poly, a': Poly)
    requires Cong(c, c') && CongSeq(a, a')
    ensures CongSeq(Scale(c, a), Scale(c', a'))
  {
    forall i | 0 <= i < |a| ensures Cong(c * a[i], c' * a'[i]) {
      CongMul(c, c', a[i], a'[i]);
    }
  }

  lemma RotCong(b: Poly, b': Poly, c: int, c': int)
    requires CongSeq(b, b') && Cong(c, c') && |b| > 0
    ensures CongSeq(Rot(b, c), Rot(b', c'))
  {
    CongMul(c, c', b[|b| - 1], b'[|b| - 1]);
  }

  lemma {:induction false} MulCong(a: Poly, a': Poly, b: Poly, b': Poly, c: int, c': int)
    requires CongSeq(a, a') && CongSeq(b, b') && Cong(c, c') && |b| > 0
    ensures CongSeq(Mul(a, b, c), Mul(a', b', c'))
  {
    if a != [] {
      MulCong(a[1..], a'[1..], b, b', c, c');
      RotCong(Mul(a[1..], b, c), Mul(a'[1..], b', c'), c, c');
      ScaleCong(a[0], a'[0], b, b');
      AddCong(Scale(a[0], b), Scale(a'[0], b'),
              Rot(Mul(a[1..], b, c), c), Rot(Mul(a'[1..], b', c'), c'));
    }
  }

  lemma SplitCong(a: Poly, a': Poly, z: int, z': int)
    requires CongSeq(a, a') && Cong(z, z') && |a| % 2 == 0
    ensures CongSeq(Split(a, z), Split(a', z'))
  {
    var n := |a| / 2;
    forall i | 0 <= i < n ensures Cong(Split(a, z)[i], Split(a', z')[i]) {
      CongMul(z, z', a[n + i], a'[n + i]);
      CongAdd(a[i], a'[i], z * a[n + i], z' * a'[n + i]);
    }
  }
}
