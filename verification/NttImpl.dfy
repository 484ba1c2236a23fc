/** The in-place transforms of kyber/ref/ntt.c on arrays of 16-bit coefficients. The methods
    compute, store by store, the functions CtBlock and GsBlock, in which every store wraps to
    int16_t as in C; the lemmas bound every coefficient, so that no store needs the wrap, and show
    the result congruent to the tree transform of NttSpec. */
module NttImpl {
  import opened Division
  import opened ModQ
  import opened Ring
  import opened Zetas
  import opened NttSpec
  import opened NttBlocks

  ghost predicate Bounded(s: Poly, b: int) {
    forall i :: 0 <= i < |s| ==> -b <= s[i] <= b
  }

  ghost predicate AllFit16(s: Poly) {
    forall i :: 0 <= i < |s| ==> Fits16(s[i])
  }

  lemma ProductBound(x: int, y: int, a: int, b: int)
    requires -a <= x <= a && -b <= y <= b
    ensures -(a * b) <= x * y <= a * b
  {
    assert (a - x) * (b + y) >= 0 && (a + x) * (b - y) >= 0;
    assert (a - x) * (b - y) >= 0 && (a + x) * (b + y) >= 0;
    assert (a - x) * (b + y) + (a + x) * (b - y) == 2 * (a * b) - 2 * (x * y);
    assert (a - x) * (b - y) + (a + x) * (b + y) == 2 * (a * b) + 2 * (x * y);
  }

  lemma ZetaProduct(k: nat, x: int)
    requires k < 128 && -65536 <= x <= 65536
    ensures MontRange(Zeta(k) * x)
  {
    hide Zeta;
    ZetaBound(k);
    ProductBound(Zeta(k), x, 1659, 65536);
  }

  // zetas[k] times x, Montgomery reduced
  function FqmulZeta(k: nat, x: int): (t: int)
    requires k < 128 && Fits16(x)
    ensures -Q < t < Q
    ensures Cong(t * 65536, Zeta(k) * x)
  {
    ZetaProduct(k, x);
    Fqmul(Zeta(k), x)
  }

  lemma FqmulTable(k: nat, x: int)
    requires k < 128 && Fits16(x)
    ensures MontRange(Zeta(k) * x) && Fqmul(Zeta(k), x) == FqmulZeta(k, x)
  {
    hide Zeta, MontRange;
    ZetaProduct(k, x);
  }

  // A Montgomery product with a table entry is a product with the root it stands for
  lemma FqmulZetaIsRoot(k: nat, x: int)
    requires k < 128 && Fits16(x)
    ensures Cong(FqmulZeta(k, x), Root(k) * x)
  {
    hide *;
    var t, y := FqmulZeta(k, x), Root(k);
    TableIsRoots(k);
    CongRefl(x);
    CongMul(Zeta(k), y * 65536, x, x);
    assert (y * 65536) * x == (y * x) * 65536;
    CongTrans(t * 65536, Zeta(k) * x, (y * x) * 65536);
    CongCancelMont(t, y * x);
  }

  // ----- Forward -----

  // t = fqmul(zeta, y): the pair (x, y) becomes (x + t, x - t)
  function CtButterfly(k: nat, x: int, y: int): (r: (int, int))
    requires k < 128 && Fits16(y)
    ensures Fits16(r.0) && Fits16(r.1)
  {
    var t := FqmulZeta(k, y);
    (I16(x + t), I16(x - t))
  }

  lemma CtButterflyOk(k: nat, x: int, y: int, b: int)
    requires k < 128 && -b <= x <= b && -b <= y <= b && b + Q < 32768
    ensures -b - Q < CtButterfly(k, x, y).0 < b + Q && -b - Q < CtButterfly(k, x, y).1 < b + Q
    ensures Cong(CtButterfly(k, x, y).0, x + Root(k) * y)
    ensures Cong(CtButterfly(k, x, y).1, x + -Root(k) * y)
  {
    hide Cong, Root, Zeta;
    var t := FqmulZeta(k, y);
    FqmulZetaIsRoot(k, y);
    CongRefl(x);
    CongAdd(x, x, t, Root(k) * y);
    assert x - Root(k) * y == x + -Root(k) * y;
  }

  function CtBlock(s: Poly, k: nat): (r: Poly)
    requires |s| % 2 == 0 && k < 128 && AllFit16(s)
    ensures |r| == |s| && AllFit16(r)
  {
    var n := |s| / 2;
    seq(2 * n, i requires 0 <= i < 2 * n =>
      if i < n then CtButterfly(k, s[i], s[i + n]).0 else CtButterfly(k, s[i - n], s[i]).1)
  }

  lemma CtBlockLow(s: Poly, k: nat, b: int, i: nat)
    requires |s| % 2 == 0 && k < 128 && Bounded(s, b) && b + Q < 32768 && AllFit16(s) && i < |s| / 2
    ensures Cong(CtBlock(s, k)[i], SplitBlock(s, k)[i]) && -b - Q < CtBlock(s, k)[i] < b + Q
  {
    hide Cong, Root, CtButterfly;
    var n := |s| / 2;
    CtButterflyOk(k, s[i], s[i + n], b);
    assert SplitBlock(s, k)[i] == s[i] + Root(k) * s[n + i];
  }

  lemma CtBlockHigh(s: Poly, k: nat, b: int, i: nat)
    requires |s| % 2 == 0 && k < 128 && Bounded(s, b) && b + Q < 32768 && AllFit16(s)
    requires |s| / 2 <= i < |s|
    ensures Cong(CtBlock(s, k)[i], SplitBlock(s, k)[i]) && -b - Q < CtBlock(s, k)[i] < b + Q
  {
    hide Cong, Root, CtButterfly;
    var n := |s| / 2;
    CtButterflyOk(k, s[i - n], s[i], b);
    assert SplitBlock(s, k)[i] == s[i - n] + -Root(k) * s[n + (i - n)];
  }

  lemma CtBlockOk(s: Poly, k: nat, b: int)
    requires |s| % 2 == 0 && k < 128 && Bounded(s, b) && b + Q < 32768 && AllFit16(s)
    ensures CongSeq(CtBlock(s, k), SplitBlock(s, k)) && Bounded(CtBlock(s, k), b + Q - 1)
  {
    hide Cong, CtBlock, SplitBlock;
    forall i | 0 <= i < |s|
      ensures Cong(CtBlock(s, k)[i], SplitBlock(s, k)[i]) && -b - Q < CtBlock(s, k)[i] < b + Q
    {
      if i < |s| / 2 { CtBlockLow(s, k, b, i); } else { CtBlockHigh(s, k, b, i); }
    }
  }

  lemma CtBlockAt(s: Poly, k: nat, i: nat, n: nat)
    requires |s| == 2 * n && k < 128 && AllFit16(s) && i < n
    ensures Fits16(s[i + n])
    ensures CtBlock(s, k)[i] == I16(s[i] + FqmulZeta(k, s[i + n]))
    ensures CtBlock(s, k)[i + n] == I16(s[i] - FqmulZeta(k, s[i + n]))
  {
    hide FqmulZeta;
  }

  // The loop over j: one block of 2 * len coefficients with zetas[k]
  // A butterfly loop at j: positions start .. j and start + len .. j + len of s hold the block c
  ghost predicate Sweep(s: seq<int>, t: seq<int>, c: seq<int>, start: nat, len: nat, j: nat) {
    && |t| == |s| && |c| == 2 * len && start <= j <= start + len && start + 2 * len <= |s|
    && (forall p :: 0 <= p < |s| ==>
          t[p] == if start <= p < j || start + len <= p < j + len then c[p - start] else s[p])
  }

  lemma SweepNext(s: seq<int>, t: seq<int>, c: seq<int>, start: nat, len: nat, j: nat)
    requires Sweep(s, t, c, start, len, j) && j < start + len
    ensures t[j] == s[j] == s[start..start + 2 * len][j - start]
    ensures t[j + len] == s[j + len] == s[start..start + 2 * len][j - start + len]
    ensures Sweep(s, t[j := c[j - start]][j + len := c[j - start + len]], c, start, len, j + 1)
  {
  }

  lemma SweepEnd(s: seq<int>, t: seq<int>, c: seq<int>, start: nat, len: nat)
    requires Sweep(s, t, c, start, len, start + len)
    ensures t[start..start + 2 * len] == c && t[..start] == s[..start] && t[start + 2 * len..] == s[start + 2 * len..]
  {
  }

  lemma SweepStart(s: seq<int>, c: seq<int>, start: nat, len: nat)
    requires |c| == 2 * len && start + 2 * len <= |s|
    ensures Sweep(s, s, c, start, len, start)
  {
  }

  method CtLoop(r: array<int>, start: nat, len: nat, k: nat)
    requires start + 2 * len <= r.Length && k < 128 && AllFit16(r[start..start + 2 * len])
    modifies r
    ensures r[start..start + 2 * len] == CtBlock(old(r[start..start + 2 * len]), k)
    ensures r[..start] == old(r[..start]) && r[start + 2 * len..] == old(r[start + 2 * len..])
  {
    hide Cong, Zeta, CtBlock, AllFit16, I16, MontRange, Sweep, FqmulZeta;
    var zeta := Zeta(k);
    ghost var s := r[..];
    ghost var b := s[start..start + 2 * len];
    ghost var c := CtBlock(b, k);
    var j := start;
    SweepStart(s, c, start, len);
    while j < start + len
      invariant Sweep(s, r[..], c, start, len, j)
      invariant start <= j <= start + len
    {
      SweepNext(s, r[..], c, start, len, j);
      CtBlockAt(b, k, j - start, len);
      FqmulTable(k, r[j + len]);
      ghost var t0 := r[..];
      var t := Fqmul(zeta, r[j + len]);
      r[j + len] := I16(r[j] - t);
      r[j] := I16(r[j] + t);
      assert r[..] == t0[j := c[j - start]][j + len := c[j - start + len]];
      j := j + 1;
    }
    SweepEnd(s, r[..], c, start, len);
  }

  // One layer: CtBlock on every block, with consecutive table entries
  ghost function CtLayer(s: Poly, l: nat, k: nat, m: nat): (r: Poly)
    requires Blocks(s, l, k, m) && AllFit16(s) && l > 0
    ensures |r| == |s| && AllFit16(r)
    decreases m
  {
    if m == 0 then []
    else
      BlocksSplit(s, l, k, m);
      NodeChildren(l, k);
      CtBlock(s[..Two(l + 1)], k) + CtLayer(s[Two(l + 1)..], l, k + 1, m - 1)
  }

  lemma CtLayerUnfold(b: Poly, t: Poly, l: nat, k: nat, m: nat)
    requires |b| == Two(l + 1) && Blocks(b + t, l, k, m) && m > 0 && AllFit16(b) && AllFit16(t) && l > 0
    ensures Blocks(t, l, k + 1, m - 1) && 1 <= k < 128 && AllFit16(b + t) && |b| % 2 == 0
    ensures CtLayer(b + t, l, k, m) == CtBlock(b, k) + CtLayer(t, l, k + 1, m - 1)
  {
    BlocksSplit(b + t, l, k, m);
    NodeChildren(l, k);
    assert (b + t)[..Two(l + 1)] == b && (b + t)[Two(l + 1)..] == t;
  }

  lemma FitSlice(s: Poly, i: nat, j: nat)
    requires AllFit16(s) && i <= j <= |s|
    ensures AllFit16(s[i..j])
  {
  }

  lemma FitAppend(s: Poly, t: Poly)
    requires AllFit16(s) && AllFit16(t)
    ensures AllFit16(s + t)
  {
  }

  lemma {:induction false} CtLayerAppend(s: Poly, b: Poly, l: nat, k: nat, m: nat)
    requires Blocks(s, l, k, m) && AllFit16(s) && l > 0 && Node(l, k + m) && k + m < 128
    requires |b| == Two(l + 1) && AllFit16(b) && |b| % 2 == 0 && AllFit16(s + b)
    ensures Blocks(s + b, l, k, m + 1)
    ensures CtLayer(s + b, l, k, m + 1) == CtLayer(s, l, k, m) + CtBlock(b, k + m)
    decreases m
  {
    hide CtBlock, AllFit16, CtLayer;
    BlocksAppend(s, b, l, k, m);
    if m == 0 {
      CtLayerSingle(s, b, l, k);
    } else {
      CtLayerAppendStep(s, b, l, k, m);
    }
  }

  lemma CtLayerSingle(s: Poly, b: Poly, l: nat, k: nat)
    requires Blocks(s, l, k, 0) && AllFit16(s) && l > 0 && Blocks(s + b, l, k, 1) && k < 128
    requires |b| == Two(l + 1) && AllFit16(b) && |b| % 2 == 0 && AllFit16(s + b)
    ensures CtLayer(s + b, l, k, 1) == CtLayer(s, l, k, 0) + CtBlock(b, k)
  {
    hide CtBlock;
    assert s + b == b + [];
    CtLayerUnfold(b, [], l, k, 1);
  }

  lemma {:induction false} CtLayerAppendStep(s: Poly, b: Poly, l: nat, k: nat, m: nat)
    requires Blocks(s, l, k, m) && AllFit16(s) && l > 0 && Node(l, k + m) && k + m < 128
    requires |b| == Two(l + 1) && AllFit16(b) && |b| % 2 == 0 && AllFit16(s + b) && m > 0
    requires Blocks(s + b, l, k, m + 1)
    ensures CtLayer(s + b, l, k, m + 1) == CtLayer(s, l, k, m) + CtBlock(b, k + m)
    decreases m, 0
  {
    hide *;
    BlocksSplit(s, l, k, m);
    var n := Two(l + 1);
    var c, t := s[0..n], s[n..|s|];
    FitSlice(s, 0, n);
    FitSlice(s, n, |s|);
    FitAppend(t, b);
    assert s == c + t && s + b == c + (t + b);
    CtLayerUnfold(c, t, l, k, m);
    CtLayerUnfold(c, t + b, l, k, m + 1);
    CtLayerAppend(t, b, l, k + 1, m - 1);
  }

  // A whole coefficient array at layer l
  lemma WholeLayer(s: Poly, l: nat)
    requires |s| == 256 && l <= BITS
    ensures Blocks(s, l, Two(BITS - l), Two(BITS - l))
  {
    TwoProduct(BITS - l, l + 1);
    assert Two(8) == 256;
  }

  // Where block m of a layer begins
  function StartOf(m: nat, l: nat): nat {
    MulNonNeg(m, Two(l + 1));
    m * Two(l + 1)
  }

  lemma NextStart(m: nat, l: nat)
    ensures StartOf(0, l) == 0 && StartOf(m + 1, l) == StartOf(m, l) + Two(l + 1)
  {
    hide Two;
  }

  lemma LayerBase(s: Poly, l: nat, k0: nat)
    requires |s| == 256 && 1 <= l <= BITS && k0 == Two(BITS - l)
    ensures Blocks(s[..0], l, k0, 0) && CtLayer(s[..0], l, k0, 0) == []
  {
  }

  lemma TwoBits()
    ensures Two(BITS + 1) == 256 && BITS == 7
  {
    assert Two(8) == 256;
  }

  lemma LayerNode(l: nat, k0: nat, m: nat)
    requires 1 <= l <= BITS && k0 == Two(BITS - l) && m < k0
    ensures Node(l, k0 + m) && 1 <= k0 + m < 128
  {
    hide Two;
    NodeChildren(l, k0 + m);
  }

  // Before block m the sweep is inside the array; it ends after k0 blocks
  lemma LayerPosition(l: nat, k0: nat, m: nat, start: nat)
    requires 1 <= l <= BITS && k0 == Two(BITS - l) && start == StartOf(m, l) <= 256
    ensures Two(l + 1) == 2 * Two(l)
    ensures start < 256 ==> m < k0 && start + Two(l + 1) <= 256 && Node(l, k0 + m) && 1 <= k0 + m < 128
    ensures start == 256 ==> m == k0
  {
    hide Two, Node;
    TwoBits();
    var n := Two(l + 1);
    TwoNext(l);
    TwoProduct(BITS - l, l + 1);
    if start < 256 {
      DivBelow(start, n, k0, m, 0);
      LayerNode(l, k0, m);
    } else {
      DivUnique(256, n, m, 0);
      DivUnique(256, n, k0, 0);
    }
  }

  lemma WholeFit(s: Poly)
    requires AllFit16(s)
    ensures AllFit16(s[..0])
  {
  }

  // What one block step does to an array of coefficients
  lemma SliceStep(s: Poly, before: Poly, after: Poly, i: nat, j: nat)
    requires |s| == |before| == |after| && i <= j <= |s|
    requires before[i..] == s[i..] && after[..i] == before[..i] && after[j..] == before[j..]
    ensures before[i..j] == s[i..j] && s[..j] == s[..i] + s[i..j]
    ensures after[..j] == before[..i] + after[i..j] && after[j..] == s[j..]
  {
    assert before[i..j] == before[i..][..j - i] && s[i..j] == s[i..][..j - i];
    assert before[j..] == before[i..][j - i..] && s[j..] == s[i..][j - i..];
  }

  // The loop over start: one layer
  method CtLayerLoop(r: array<int>, len: nat, k0: nat, ghost l: nat) returns (k: nat)
    requires r.Length == 256 && AllFit16(r[..]) && 1 <= l <= BITS
    requires len == Two(l) && k0 == Two(BITS - l)
    modifies r
    ensures Blocks(old(r[..]), l, k0, k0)
    ensures r[..] == CtLayer(old(r[..]), l, k0, k0)
    ensures k == 2 * k0 && AllFit16(r[..])
  {
    hide CtLayer, CtBlock, Blocks, AllFit16, Node, Two, StartOf;
    ghost var s := r[..];
    WholeLayer(s, l);
    LayerBase(s, l, k0);
    WholeFit(s);
    k := k0;
    var start := 0;
    ghost var m := 0;
    NextStart(0, l);
    while start < 256
      invariant start == StartOf(m, l) && start <= 256 && k == k0 + m && m <= k0
      invariant Blocks(s[..start], l, k0, m) && AllFit16(s[..start])
      invariant r[..start] == CtLayer(s[..start], l, k0, m)
      invariant r[start..] == s[start..]
    {
      LayerPosition(l, k0, m, start);
      var next := start + 2 * len;
      ghost var before := r[..];
      FitSlice(s, 0, next);
      FitSlice(s, start, next);
      SliceStep(s, before, before, start, next);
      CtLoop(r, start, len, k);
      SliceStep(s, before, r[..], start, next);
      CtLayerAppend(s[..start], s[start..next], l, k0, m);
      NextStart(m, l);
      start := next;
      k := k + 1;
      m := m + 1;
    }
    LayerPosition(l, k0, m, start);
    assert s[..start] == s && r[..start] == r[..];
  }

  // The layers l, l - 1, .., 1 in turn
  ghost function CtLayers(s: Poly, l: nat): (r: Poly)
    requires |s| == 256 && AllFit16(s) && l <= BITS
    ensures |r| == 256 && AllFit16(r)
    decreases l
  {
    if l == 0 then s
    else
      WholeLayer(s, l);
      CtLayers(CtLayer(s, l, Two(BITS - l), Two(BITS - l)), l - 1)
  }

  method NttInPlace(r: array<int>)
    requires r.Length == 256 && AllFit16(r[..])
    modifies r
    ensures r[..] == CtLayers(old(r[..]), BITS)
  {
    hide CtLayer, AllFit16;
    var k := 1;
    var len := 128;
    ghost var l: nat := BITS;
    while len >= 2
      invariant l <= BITS && len == Two(l) && k == Two(BITS - l) && AllFit16(r[..])
      invariant CtLayers(r[..], l) == CtLayers(old(r[..]), BITS)
      decreases len
    {
      LayerHalf(l);
      k := CtLayerLoop(r, len, k, l);
      len := len / 2;
      l := l - 1;
    }
  }

  lemma LayerHalf(l: nat)
    requires 2 <= Two(l) && l <= BITS
    ensures l > 0 && Two(l) / 2 == Two(l - 1) && Two(BITS - (l - 1)) == 2 * Two(BITS - l)
  {
  }

  // ----- The forward transform is the tree transform -----

  lemma {:induction false} CtLayerOk(s: Poly, l: nat, k: nat, m: nat, b: int)
    requires Blocks(s, l, k, m) && AllFit16(s) && l > 0 && Bounded(s, b) && b + Q < 32768
    ensures CongSeq(CtLayer(s, l, k, m), SplitLayer(s, l, k, m))
    ensures Bounded(CtLayer(s, l, k, m), b + Q - 1)
    decreases m
  {
    if m > 0 {
      CtLayerOkStep(s, l, k, m, b);
    }
  }

  lemma BoundedSlice(s: Poly, b: int, i: nat, j: nat)
    requires Bounded(s, b) && i <= j <= |s|
    ensures Bounded(s[i..j], b)
  {
  }

  lemma BoundedAppend(s: Poly, t: Poly, b: int)
    requires Bounded(s, b) && Bounded(t, b)
    ensures Bounded(s + t, b)
  {
  }

  lemma {:induction false} CtLayerOkStep(s: Poly, l: nat, k: nat, m: nat, b: int)
    requires Blocks(s, l, k, m) && AllFit16(s) && l > 0 && Bounded(s, b) && b + Q < 32768 && m > 0
    ensures CongSeq(CtLayer(s, l, k, m), SplitLayer(s, l, k, m))
    ensures Bounded(CtLayer(s, l, k, m), b + Q - 1)
    decreases m, 0
  {
    hide CtLayer, SplitLayer, CtBlock, SplitBlock, Blocks, AllFit16, Bounded, CongSeq, Two;
    BlocksSplit(s, l, k, m);
    SplitLayerUnfold(s, l, k, m);
    var n := Two(l + 1);
    var c, t := s[..n], s[n..];
    assert s[0..n] == c && s[n..|s|] == t && s == c + t;
    FitSlice(s, 0, n);
    FitSlice(s, n, |s|);
    BoundedSlice(s, b, 0, n);
    BoundedSlice(s, b, n, |s|);
    CtLayerUnfold(c, t, l, k, m);
    CtBlockOk(c, k, b);
    CtLayerOk(t, l, k + 1, m - 1, b);
    SplitBlockForm(c, k);
    CongAppend(CtBlock(c, k), SplitBlock(c, k),
               CtLayer(t, l, k + 1, m - 1), SplitLayer(t, l, k + 1, m - 1));
    BoundedAppend(CtBlock(c, k), CtLayer(t, l, k + 1, m - 1), b + Q - 1);
  }

  lemma SplitBlockForm(c: Poly, k: nat)
    requires |c| % 2 == 0
    ensures SplitBlock(c, k) == Split(c, Root(k)) + Split(c, -Root(k))
  {
  }

  lemma {:induction false} NttAllCong(s: Poly, t: Poly, l: nat, k: nat, m: nat)
    requires Blocks(s, l, k, m) && CongSeq(s, t)
    ensures Blocks(t, l, k, m) && CongSeq(NttAll(s, l, k, m), NttAll(t, l, k, m))
    decreases m
  {
    if m > 0 {
      NttAllCongStep(s, t, l, k, m);
    }
  }

  lemma {:induction false} NttAllCongStep(s: Poly, t: Poly, l: nat, k: nat, m: nat)
    requires Blocks(s, l, k, m) && Blocks(t, l, k, m) && CongSeq(s, t) && m > 0
    ensures CongSeq(NttAll(s, l, k, m), NttAll(t, l, k, m))
    decreases m, 0
  {
    hide *;
    NttAllUnfold(s, l, k, m);
    NttAllUnfold(t, l, k, m);
    var n := Two(l + 1);
    SliceCong(s, t, n);
    NttCong(s[..n], t[..n], l, k);
    NttAllCong(s[n..], t[n..], l, k + 1, m - 1);
    CongAppend(Ntt(s[..n], l, k), Ntt(t[..n], l, k),
               NttAll(s[n..], l, k + 1, m - 1), NttAll(t[n..], l, k + 1, m - 1));
  }

  lemma {:induction false} NttAllLeaves(s: Poly, k: nat, m: nat)
    requires Blocks(s, 0, k, m)
    ensures NttAll(s, 0, k, m) == s
    decreases m
  {
    if m > 0 {
      BlocksSplit(s, 0, k, m);
      NttAllLeaves(s[2..], k + 1, m - 1);
    }
  }

  lemma {:induction false} CtLayersOk(s: Poly, l: nat, b: int)
    requires |s| == 256 && AllFit16(s) && l <= BITS && Bounded(s, b) && b + l * Q < 32768
    ensures Blocks(s, l, Two(BITS - l), Two(BITS - l))
    ensures CongSeq(CtLayers(s, l), NttAll(s, l, Two(BITS - l), Two(BITS - l)))
    ensures Bounded(CtLayers(s, l), b + l * (Q - 1))
    decreases l
  {
    WholeLayer(s, l);
    if l == 0 {
      NttAllLeaves(s, Two(BITS), Two(BITS));
      CongSeqRefl(s);
    } else {
      CtLayersOkStep(s, l, b);
    }
  }

  lemma {:induction false} CtLayersOkStep(s: Poly, l: nat, b: int)
    requires |s| == 256 && AllFit16(s) && 0 < l <= BITS && Bounded(s, b) && b + l * Q < 32768
    requires Blocks(s, l, Two(BITS - l), Two(BITS - l))
    ensures CongSeq(CtLayers(s, l), NttAll(s, l, Two(BITS - l), Two(BITS - l)))
    ensures Bounded(CtLayers(s, l), b + l * (Q - 1))
    decreases l, 0
  {
    hide CtLayer, SplitLayer, NttAll, Bounded, CongSeq, AllFit16, Blocks;
    var k := Two(BITS - l);
    assert Two(BITS - (l - 1)) == 2 * k;
    var c, d := CtLayer(s, l, k, k), SplitLayer(s, l, k, k);
    CtLayerOk(s, l, k, k, b);
    CtLayersOk(c, l - 1, b + Q - 1);
    NttAllCong(c, d, l - 1, 2 * k, 2 * k);
    NttAllOfSplit(s, l, k, k);
    CongSeqTrans(CtLayers(c, l - 1), NttAll(c, l - 1, 2 * k, 2 * k), NttAll(d, l - 1, 2 * k, 2 * k));
  }
}
