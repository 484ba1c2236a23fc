/** invntt of kyber/ref/ntt.c: the seven Gentleman-Sande layers in place, then the scaling by
    1441 = 2^32 / 128 modulo q. Same shape as NttImpl: exact functions of the stores, then the
    proof that they are the inverse tree and never leave the int16_t range. */
module InvNttImpl {
  import opened ModQ
  import opened Ring
  import opened Zetas
  import opened NttSpec
  import opened NttBlocks
  import opened NttImpl

  // t = x: the pair becomes (barrett_reduce(t + y), fqmul(zetas[k], y - t))
  function GsButterfly(k: nat, x: int, y: int): (r: (int, int))
    requires k < 128
    ensures -1664 <= r.0 <= 1664 && -Q < r.1 < Q
  {
    (BarrettReduce(I16(x + y)), FqmulZeta(k, I16(y - x)))
  }

  lemma GsButterflyOk(k: nat, x: int, y: int)
    requires k < 128 && -16383 <= x <= 16383 && -16383 <= y <= 16383
    ensures Cong(GsButterfly(k, x, y).0, x + y)
    ensures Cong(GsButterfly(k, x, y).1, Root(k) * (y - x))
  {
    hide Cong, Root, Zeta;
    FqmulZetaIsRoot(k, y - x);
  }

  function GsBlockAtIndex(s: Poly, k: nat, i: nat): (x: int)
    requires |s| % 2 == 0 && k < 128 && i < |s|
    ensures -Q < x < Q
  {
    var n := |s| / 2;
    if i < n then GsButterfly(k, s[i], s[i + n]).0 else GsButterfly(k, s[i - n], s[i]).1
  }

  function GsBlock(s: Poly, k: nat): (r: Poly)
    requires |s| % 2 == 0 && k < 128
    ensures |r| == |s| && AllFit16(r) && Bounded(r, Q - 1)
  {
    seq(|s|, i requires 0 <= i < |s| => GsBlockAtIndex(s, k, i))
  }

  lemma GsBlockOk(s: Poly, k: nat)
    requires |s| % 2 == 0 && 1 <= k < 128 && Bounded(s, 16383)
    ensures CongSeq(GsBlock(s, Mirror(k)), MergeBlock(s, k))
  {
    hide Cong, Root, GsButterfly, Mirror;
    var n, m := |s| / 2, Mirror(k);
    var lo, hi := s[..n], s[n..];
    forall i | 0 <= i < 2 * n ensures Cong(GsBlock(s, m)[i], MergeBlock(s, k)[i]) {
      if i < n {
        GsButterflyOk(m, s[i], s[i + n]);
        assert MergeBlock(s, k)[i] == s[i] + s[i + n];
      } else {
        GsButterflyOk(m, s[i - n], s[i]);
        assert MergeBlock(s, k)[i] == Root(m) * (s[i] - s[i - n]);
      }
    }
  }

  lemma GsBlockAt(s: Poly, k: nat, i: nat, n: nat)
    requires |s| == 2 * n && k < 128 && i < n
    ensures GsBlock(s, k)[i] == BarrettReduce(I16(s[i] + s[i + n]))
    ensures GsBlock(s, k)[i + n] == FqmulZeta(k, I16(s[i + n] - s[i]))
  {
    hide FqmulZeta, BarrettReduce;
  }

  // The loop over j
  method GsLoop(r: array<int>, start: nat, len: nat, k: nat)
    requires start + 2 * len <= r.Length && k < 128
    modifies r
    ensures r[start..start + 2 * len] == GsBlock(old(r[start..start + 2 * len]), k)
    ensures r[..start] == old(r[..start]) && r[start + 2 * len..] == old(r[start + 2 * len..])
  {
    hide Cong, Zeta, GsBlock, BarrettReduce, I16, MontRange, Sweep, FqmulZeta;
    var zeta := Zeta(k);
    ghost var s := r[..];
    ghost var b := s[start..start + 2 * len];
    ghost var c := GsBlock(b, k);
    var j := start;
    SweepStart(s, c, start, len);
    while j < start + len
      invariant Sweep(s, r[..], c, start, len, j)
      invariant start <= j <= start + len
    {
      SweepNext(s, r[..], c, start, len, j);
      GsBlockAt(b, k, j - start, len);
      ghost var t0 := r[..];
      var t := r[j];
      r[j] := BarrettReduce(I16(t + r[j + len]));
      ghost var t1 := t0[j := c[j - start]];
      assert r[..] == t1;
      r[j + len] := I16(r[j + len] - t);
      FqmulTable(k, r[j + len]);
      r[j + len] := Fqmul(zeta, r[j + len]);
      assert r[..] == t1[j + len := c[j - start + len]];
      j := j + 1;
    }
    SweepEnd(s, r[..], c, start, len);
  }

  // ----- One layer -----

  ghost function GsLayer(s: Poly, l: nat, k: nat, m: nat): (r: Poly)
    requires Blocks(s, l, k, m) && l > 0
    ensures |r| == |s| && AllFit16(r) && Bounded(r, Q - 1)
    decreases m
  {
    if m == 0 then []
    else
      BlocksSplit(s, l, k, m);
      NodeChildren(l, k);
      GsBlock(s[..Two(l + 1)], Mirror(k)) + GsLayer(s[Two(l + 1)..], l, k + 1, m - 1)
  }

  lemma GsLayerUnfold(b: Poly, t: Poly, l: nat, k: nat, m: nat)
    requires |b| == Two(l + 1) && Blocks(b + t, l, k, m) && m > 0 && l > 0
    ensures Blocks(t, l, k + 1, m - 1) && 1 <= k < 128 && |b| % 2 == 0
    ensures GsLayer(b + t, l, k, m) == GsBlock(b, Mirror(k)) + GsLayer(t, l, k + 1, m - 1)
  {
    hide GsBlock;
    BlocksSplit(b + t, l, k, m);
    NodeChildren(l, k);
    assert (b + t)[..Two(l + 1)] == b && (b + t)[Two(l + 1)..] == t;
  }

  lemma GsLayerSingle(s: Poly, b: Poly, l: nat, k: nat)
    requires Blocks(s, l, k, 0) && l > 0 && Blocks(s + b, l, k, 1) && 1 <= k < 128
    requires |b| == Two(l + 1) && |b| % 2 == 0
    ensures GsLayer(s + b, l, k, 1) == GsLayer(s, l, k, 0) + GsBlock(b, Mirror(k))
  {
    hide GsBlock, Mirror;
    assert s + b == b + [];
    GsLayerUnfold(b, [], l, k, 1);
  }

  lemma {:induction false} GsLayerAppend(s: Poly, b: Poly, l: nat, k: nat, m: nat)
    requires Blocks(s, l, k, m) && l > 0 && Node(l, k + m) && 1 <= k + m < 128
    requires |b| == Two(l + 1) && |b| % 2 == 0
    ensures Blocks(s + b, l, k, m + 1)
    ensures GsLayer(s + b, l, k, m + 1) == GsLayer(s, l, k, m) + GsBlock(b, Mirror(k + m))
    decreases m
  {
    hide GsBlock, GsLayer, Mirror;
    BlocksAppend(s, b, l, k, m);
    if m == 0 {
      GsLayerSingle(s, b, l, k);
    } else {
      GsLayerAppendStep(s, b, l, k, m);
    }
  }

  lemma {:induction false} GsLayerAppendStep(s: Poly, b: Poly, l: nat, k: nat, m: nat)
    requires Blocks(s, l, k, m) && l > 0 && Node(l, k + m) && 1 <= k + m < 128
    requires |b| == Two(l + 1) && |b| % 2 == 0 && m > 0 && Blocks(s + b, l, k, m + 1)
    ensures GsLayer(s + b, l, k, m + 1) == GsLayer(s, l, k, m) + GsBlock(b, Mirror(k + m))
    decreases m, 0
  {
    hide *;
    BlocksSplit(s, l, k, m);
    var c, t := s[..Two(l + 1)], s[Two(l + 1)..];
    assert s == c + t && s + b == c + (t + b);
    GsLayerUnfold(c, t, l, k, m);
    GsLayerUnfold(c, t + b, l, k, m + 1);
    GsLayerAppend(t, b, l, k + 1, m - 1);
  }

  // Counting k down from 2 * k0 - 1 visits the mirrored nodes
  lemma {:induction false} MirrorCount(l: nat, m: nat)
    requires 1 <= l <= BITS && m < Two(BITS - l)
    ensures var k0 := Two(BITS - l); 1 <= k0 + m < 128 && Mirror(k0 + m) == 2 * k0 - 1 - m
  {
    NodeChildren(l, Two(BITS - l) + m);
    if l >= 4 { assert Two(BITS - l) <= 8; } else { assert Two(BITS - l) >= 16; }
  }

  lemma GsLayerBase(s: Poly, l: nat, k0: nat)
    requires |s| == 256 && 1 <= l <= BITS && k0 == Two(BITS - l)
    ensures Blocks(s[..0], l, k0, 0) && GsLayer(s[..0], l, k0, 0) == []
  {
  }

  // One more block of the layer is done
  lemma GsLayerNext(s: Poly, before: Poly, after: Poly, l: nat, k0: nat, m: nat, start: nat, next: nat)
    requires |s| == |before| == |after| && l > 0 && start <= next <= |s| && next - start == Two(l + 1) == 2 * Two(l)
    requires Node(l, k0 + m) && 1 <= k0 + m < 128
    requires Blocks(s[..start], l, k0, m) && before[..start] == GsLayer(s[..start], l, k0, m)
    requires before[start..] == s[start..] && after[..start] == before[..start] && after[next..] == before[next..]
    requires after[start..next] == GsBlock(before[start..next], Mirror(k0 + m))
    ensures Blocks(s[..next], l, k0, m + 1) && after[..next] == GsLayer(s[..next], l, k0, m + 1)
    ensures after[next..] == s[next..]
  {
    hide GsLayer, GsBlock, Blocks, Node, Two, Mirror;
    SliceStep(s, before, after, start, next);
    GsLayerAppend(s[..start], s[start..next], l, k0, m);
  }

  method GsLayerLoop(r: array<int>, len: nat, kIn: nat, ghost l: nat) returns (k: nat)
    requires r.Length == 256 && 1 <= l <= BITS
    requires len == Two(l) && kIn == 2 * Two(BITS - l) - 1
    modifies r
    ensures Blocks(old(r[..]), l, Two(BITS - l), Two(BITS - l))
    ensures r[..] == GsLayer(old(r[..]), l, Two(BITS - l), Two(BITS - l))
    ensures k == Two(BITS - l) - 1
  {
    hide GsLayer, GsBlock, Blocks, Node, Two, Mirror, StartOf;
    ghost var s := r[..];
    ghost var k0 := Two(BITS - l);
    WholeLayer(s, l);
    GsLayerBase(s, l, k0);
    k := kIn;
    var start := 0;
    ghost var m := 0;
    NextStart(0, l);
    while start < 256
      invariant start == StartOf(m, l) && start <= 256 && k == kIn - m && m <= k0
      invariant Blocks(s[..start], l, k0, m)
      invariant r[..start] == GsLayer(s[..start], l, k0, m)
      invariant r[start..] == s[start..]
    {
      LayerPosition(l, k0, m, start);
      MirrorCount(l, m);
      ghost var before := r[..];
      GsLoop(r, start, len, k);
      GsLayerNext(s, before, r[..], l, k0, m, start, start + 2 * len);
      NextStart(m, l);
      start := start + 2 * len;
      k := k - 1;
      m := m + 1;
    }
    LayerPosition(l, k0, m, start);
    assert s[..start] == s && r[..start] == r[..];
  }

  // The layers 1, 2, .., l in turn
  ghost function GsLayers(s: Poly, l: nat): (r: Poly)
    requires |s| == 256 && l <= BITS
    ensures |r| == 256
  {
    if l == 0 then s
    else
      WholeLayer(GsLayers(s, l - 1), l);
      GsLayer(GsLayers(s, l - 1), l, Two(BITS - l), Two(BITS - l))
  }

  const INV_F: int := 1441

  lemma FinalProduct(x: int)
    requires Fits16(x)
    ensures MontRange(x * INV_F)
  {
  }

  function FinalFqmul(x: int): (r: int)
    requires Fits16(x)
    ensures -Q < r < Q && Cong(r * 65536, x * INV_F)
  {
    FinalProduct(x);
    Fqmul(x, INV_F)
  }

  lemma GsLayersFit(s: Poly)
    requires |s| == 256
    ensures Bounded(GsLayers(s, BITS), Q - 1) && AllFit16(GsLayers(s, BITS))
  {
    WholeLayer(GsLayers(s, BITS - 1), BITS);
  }

  function ScaleAll(g: Poly): (r: Poly)
    requires AllFit16(g)
    ensures |r| == |g| && Bounded(r, Q - 1)
  {
    seq(|g|, i requires 0 <= i < |g| => FinalFqmul(g[i]))
  }

  ghost function InvNttC(s: Poly): (r: Poly)
    requires |s| == 256
    ensures |r| == 256 && Bounded(r, Q - 1)
  {
    GsLayersFit(s);
    ScaleAll(GsLayers(s, BITS))
  }

  lemma InvLayerStep(l: nat)
    requires l < BITS
    ensures Two(l + 1) == 2 * Two(l) && Two(BITS - l) == 2 * Two(BITS - (l + 1))
    ensures 2 * Two(l + 1) == Two(l + 2) && Two(l + 1) <= 128
  {
    TwoMonotone(l + 1, BITS);
    assert Two(BITS) == 128;
  }

  method ScaleLoop(r: array<int>)
    requires r.Length == 256 && AllFit16(r[..])
    modifies r
    ensures r[..] == ScaleAll(old(r[..]))
  {
    hide FinalFqmul;
    ghost var g := r[..];
    var j := 0;
    while j < 256
      invariant 0 <= j <= 256
      invariant forall p :: j <= p < 256 ==> r[p] == g[p]
      invariant forall p :: 0 <= p < j ==> r[p] == FinalFqmul(g[p])
    {
      r[j] := FinalFqmul(r[j]);
      j := j + 1;
    }
  }

  method InvNttInPlace(r: array<int>)
    requires r.Length == 256
    modifies r
    ensures r[..] == InvNttC(old(r[..]))
  {
    hide GsLayer, AllFit16, Bounded;
    var k := 127;
    var len := 2;
    ghost var l: nat := 0;
    while len <= 128
      invariant l <= BITS && len == 2 * Two(l) && k == Two(BITS - l) - 1
      invariant r[..] == GsLayers(old(r[..]), l)
      decreases 256 - len
    {
      InvLayerBound(l);
      InvLayerStep(l);
      k := GsLayerLoop(r, len, k, l + 1);
      len := len * 2;
      l := l + 1;
    }
    InvLayerBound(l);
    GsLayersFit(old(r[..]));
    ScaleLoop(r);
  }

  lemma InvLayerBound(l: nat)
    requires l <= BITS
    ensures 2 * Two(l) <= 128 <==> l < BITS
  {
    assert Two(BITS) == 128;
    if l < BITS { TwoMonotone(l + 1, BITS); }
  }

  // ----- The inverse layers are the inverse tree -----

  lemma {:induction false} GsLayerOk(s: Poly, l: nat, k: nat, m: nat)
    requires Blocks(s, l, k, m) && l > 0 && Bounded(s, 16383)
    ensures CongSeq(GsLayer(s, l, k, m), MergeLayer(s, l, k, m))
    decreases m
  {
    if m > 0 {
      GsLayerOkStep(s, l, k, m);
    }
  }

  lemma MergeLayerCons(c: Poly, t: Poly, l: nat, k: nat, m: nat)
    requires |c| == Two(l + 1) && Blocks(c + t, l, k, m) && m > 0 && l > 0
    ensures Blocks(t, l, k + 1, m - 1) && 1 <= k < 128 && |c| % 2 == 0
    ensures MergeLayer(c + t, l, k, m) == MergeBlock(c, k) + MergeLayer(t, l, k + 1, m - 1)
  {
    hide MergeBlock;
    BlocksSplit(c + t, l, k, m);
    NodeChildren(l, k);
    assert (c + t)[..Two(l + 1)] == c && (c + t)[Two(l + 1)..] == t;
  }

  lemma {:induction false} GsLayerOkStep(s: Poly, l: nat, k: nat, m: nat)
    requires Blocks(s, l, k, m) && l > 0 && Bounded(s, 16383) && m > 0
    ensures CongSeq(GsLayer(s, l, k, m), MergeLayer(s, l, k, m))
    decreases m, 0
  {
    hide *;
    BlocksSplit(s, l, k, m);
    var n := Two(l + 1);
    var c, t := s[..n], s[n..];
    assert s[0..n] == c && s[n..|s|] == t && s == c + t;
    BoundedSlice(s, 16383, 0, n);
    BoundedSlice(s, 16383, n, |s|);
    GsLayerUnfold(c, t, l, k, m);
    MergeLayerCons(c, t, l, k, m);
    GsBlockOk(c, k);
    GsLayerOk(t, l, k + 1, m - 1);
    CongAppend(GsBlock(c, Mirror(k)), MergeBlock(c, k),
               GsLayer(t, l, k + 1, m - 1), MergeLayer(t, l, k + 1, m - 1));
  }

  lemma {:induction false} MergeLayerCong(s: Poly, t: Poly, l: nat, k: nat, m: nat)
    requires Blocks(s, l, k, m) && CongSeq(s, t) && l > 0
    ensures Blocks(t, l, k, m) && CongSeq(MergeLayer(s, l, k, m), MergeLayer(t, l, k, m))
    decreases m
  {
    if m > 0 {
      MergeLayerCongStep(s, t, l, k, m);
    }
  }

  lemma MergeBlockCong(c: Poly, d: Poly, k: nat)
    requires |c| % 2 == 0 && CongSeq(c, d) && 1 <= k < 128
    ensures CongSeq(MergeBlock(c, k), MergeBlock(d, k))
  {
    hide Cong, Merge, Root, Mirror;
    var n := |c| / 2;
    MergeCong(c[..n], c[n..], d[..n], d[n..], Root(Mirror(k)));
  }

  lemma {:induction false} MergeLayerCongStep(s: Poly, t: Poly, l: nat, k: nat, m: nat)
    requires Blocks(s, l, k, m) && Blocks(t, l, k, m) && CongSeq(s, t) && l > 0 && m > 0
    ensures CongSeq(MergeLayer(s, l, k, m), MergeLayer(t, l, k, m))
    decreases m, 0
  {
    hide *;
    BlocksSplit(s, l, k, m);
    BlocksSplit(t, l, k, m);
    var n := Two(l + 1);
    var c, c', d, d' := s[..n], t[..n], s[n..], t[n..];
    assert s == c + d && t == c' + d';
    SliceCong(s, t, n);
    MergeLayerCons(c, d, l, k, m);
    MergeLayerCons(c', d', l, k, m);
    MergeBlockCong(c, c', k);
    MergeLayerCong(d, d', l, k + 1, m - 1);
    CongAppend(MergeBlock(c, k), MergeBlock(c', k),
               MergeLayer(d, l, k + 1, m - 1), MergeLayer(d', l, k + 1, m - 1));
  }

  lemma {:induction false} InvAllLeaves(s: Poly, k: nat, m: nat)
    requires Blocks(s, 0, k, m)
    ensures InvAll(s, 0, k, m) == s
    decreases m
  {
    if m > 0 {
      BlocksSplit(s, 0, k, m);
      InvAllLeaves(s[2..], k + 1, m - 1);
    }
  }

  lemma {:induction false} GsLayersOk(s: Poly, l: nat)
    requires |s| == 256 && l <= BITS && Bounded(s, 16383)
    ensures Blocks(s, l, Two(BITS - l), Two(BITS - l)) && Bounded(GsLayers(s, l), 16383)
    ensures CongSeq(GsLayers(s, l), InvAll(s, l, Two(BITS - l), Two(BITS - l)))
    decreases l
  {
    WholeLayer(s, l);
    if l == 0 {
      InvAllLeaves(s, Two(BITS), Two(BITS));
      CongSeqRefl(s);
    } else {
      GsLayersOkStep(s, l);
    }
  }

  lemma GsLayersUnfold(s: Poly, l: nat)
    requires |s| == 256 && 0 < l <= BITS
    ensures Blocks(GsLayers(s, l - 1), l, Two(BITS - l), Two(BITS - l))
    ensures GsLayers(s, l) == GsLayer(GsLayers(s, l - 1), l, Two(BITS - l), Two(BITS - l))
    ensures Two(BITS - (l - 1)) == 2 * Two(BITS - l)
    ensures Bounded(GsLayers(s, l), 16383)
  {
    WholeLayer(GsLayers(s, l - 1), l);
  }

  lemma {:induction false} GsLayersOkStep(s: Poly, l: nat)
    requires |s| == 256 && 0 < l <= BITS && Bounded(s, 16383)
    requires Blocks(s, l, Two(BITS - l), Two(BITS - l))
    ensures Bounded(GsLayers(s, l), 16383)
    ensures CongSeq(GsLayers(s, l), InvAll(s, l, Two(BITS - l), Two(BITS - l)))
    decreases l, 0
  {
    hide *;
    var k := Two(BITS - l);
    GsLayersUnfold(s, l);
    GsLayersOk(s, l - 1);
    MergeOfInvAll(s, l, k, k);
    var c, d := GsLayers(s, l - 1), InvAll(s, l - 1, 2 * k, 2 * k);
    GsLayerOk(c, l, k, k);
    MergeLayerCong(c, d, l, k, k);
    CongSeqTrans(GsLayer(c, l, k, k), MergeLayer(c, l, k, k), MergeLayer(d, l, k, k));
  }
}
