/** One layer of the transform over all blocks of a coefficient array, as the two outer loops of
    kyber/ref/ntt.c visit them, and how the layers compose to the tree transforms. */
module NttBlocks {
  import opened Ring
  import opened Zetas
  import opened NttSpec

  // m consecutive blocks of length 2^(l+1), the first one at node k
  ghost predicate Blocks(s: Poly, l: nat, k: nat, m: nat) {
    |s| == m * Two(l + 1) && l <= BITS && Two(BITS - l) <= k && k + m <= 2 * Two(BITS - l)
  }

  lemma BlocksSplit(s: Poly, l: nat, k: nat, m: nat)
    requires Blocks(s, l, k, m) && m > 0
    ensures |s| >= Two(l + 1)
    ensures Blocks(s[Two(l + 1)..], l, k + 1, m - 1) && Node(l, k)
  {
    var n := Two(l + 1);
    assert (m - 1) * n + n == m * n;
  }

  lemma BlocksAppend(s: Poly, b: Poly, l: nat, k: nat, m: nat)
    requires Blocks(s, l, k, m) && |b| == Two(l + 1) && Node(l, k + m)
    ensures Blocks(s + b, l, k, m + 1)
  {
    var n := Two(l + 1);
    assert (m + 1) * n == m * n + n;
  }

  // The transform of every block
  ghost function NttAll(s: Poly, l: nat, k: nat, m: nat): (r: Poly)
    requires Blocks(s, l, k, m)
    ensures |r| == |s|
    decreases m
  {
    if m == 0 then []
    else
      BlocksSplit(s, l, k, m);
      Ntt(s[..Two(l + 1)], l, k) + NttAll(s[Two(l + 1)..], l, k + 1, m - 1)
  }

  ghost function InvAll(s: Poly, l: nat, k: nat, m: nat): (r: Poly)
    requires Blocks(s, l, k, m)
    ensures |r| == |s|
    decreases m
  {
    if m == 0 then []
    else
      BlocksSplit(s, l, k, m);
      InvNtt(s[..Two(l + 1)], l, k) + InvAll(s[Two(l + 1)..], l, k + 1, m - 1)
  }

  // ----- One forward layer -----

  // The block split by the two roots of its node
  function SplitBlock(b: Poly, k: nat): (r: Poly)
    requires |b| % 2 == 0
    ensures |r| == |b|
  {
    Split(b, Root(k)) + Split(b, -Root(k))
  }

  ghost function SplitLayer(s: Poly, l: nat, k: nat, m: nat): (r: Poly)
    requires Blocks(s, l, k, m)
    ensures |r| == |s|
    decreases m
  {
    if m == 0 then []
    else
      BlocksSplit(s, l, k, m);
      SplitBlock(s[..Two(l + 1)], k) + SplitLayer(s[Two(l + 1)..], l, k + 1, m - 1)
  }

  lemma BlocksHalve(s: Poly, l: nat, k: nat, m: nat)
    requires Blocks(s, l, k, m) && l > 0
    ensures Blocks(s, l - 1, 2 * k, 2 * m)
  {
    assert 2 * m * Two(l) == m * Two(l + 1);
    assert Two(BITS - (l - 1)) == 2 * Two(BITS - l);
  }

  lemma {:induction false} NttAllTwo(a: Poly, b: Poly, s: Poly, l: nat, k: nat, m: nat)
    requires |a| == |b| == Two(l + 1) && Blocks(a + b + s, l, k, m) && m >= 2
    ensures Blocks(s, l, k + 2, m - 2)
    ensures NttAll(a + b + s, l, k, m)
         == Ntt(a, l, k) + Ntt(b, l, k + 1) + NttAll(s, l, k + 2, m - 2)
  {
    hide Blocks, Two, Ntt, Node;
    var t := a + b + s;
    BlocksSplit(t, l, k, m);
    assert t[..Two(l + 1)] == a && t[Two(l + 1)..] == b + s;
    BlocksSplit(b + s, l, k + 1, m - 1);
    assert (b + s)[..Two(l + 1)] == b && (b + s)[Two(l + 1)..] == s;
  }

  // Splitting every block and transforming the halves transforms the blocks
  lemma {:induction false} NttAllOfSplit(s: Poly, l: nat, k: nat, m: nat)
    requires Blocks(s, l, k, m) && l > 0
    ensures Blocks(SplitLayer(s, l, k, m), l - 1, 2 * k, 2 * m)
    ensures NttAll(s, l, k, m) == NttAll(SplitLayer(s, l, k, m), l - 1, 2 * k, 2 * m)
    decreases m
  {
    BlocksHalve(SplitLayer(s, l, k, m), l, k, m);
    if m > 0 {
      NttAllOfSplitStep(s, l, k, m);
    }
  }

  lemma SplitLayerUnfold(s: Poly, l: nat, k: nat, m: nat)
    requires Blocks(s, l, k, m) && m > 0
    ensures |s| >= Two(l + 1) && Blocks(s[Two(l + 1)..], l, k + 1, m - 1) && Two(l + 1) == 2 * Two(l)
    ensures SplitLayer(s, l, k, m)
         == Split(s[..Two(l + 1)], Root(k)) + Split(s[..Two(l + 1)], -Root(k))
          + SplitLayer(s[Two(l + 1)..], l, k + 1, m - 1)
  {
    BlocksSplit(s, l, k, m);
  }

  lemma NttAllUnfold(s: Poly, l: nat, k: nat, m: nat)
    requires Blocks(s, l, k, m) && m > 0
    ensures |s| >= Two(l + 1) && Blocks(s[Two(l + 1)..], l, k + 1, m - 1)
    ensures NttAll(s, l, k, m) == Ntt(s[..Two(l + 1)], l, k) + NttAll(s[Two(l + 1)..], l, k + 1, m - 1)
  {
    BlocksSplit(s, l, k, m);
  }

  lemma {:induction false} NttAllOfSplitStep(s: Poly, l: nat, k: nat, m: nat)
    requires Blocks(s, l, k, m) && l > 0 && m > 0
    requires Blocks(SplitLayer(s, l, k, m), l - 1, 2 * k, 2 * m)
    ensures NttAll(s, l, k, m) == NttAll(SplitLayer(s, l, k, m), l - 1, 2 * k, 2 * m)
    decreases m, 0
  {
    hide *;
    SplitLayerUnfold(s, l, k, m);
    NttAllUnfold(s, l, k, m);
    var b, t := s[..Two(l + 1)], s[Two(l + 1)..];
    var x, y, u := Split(b, Root(k)), Split(b, -Root(k)), SplitLayer(t, l, k + 1, m - 1);
    NttAllOfSplit(t, l, k + 1, m - 1);
    NttUnfold(b, l, k);
    NttAllTwo(x, y, u, l - 1, 2 * k, 2 * m);
  }

  // ----- One inverse layer -----

  function MergeBlock(b: Poly, k: nat): (r: Poly)
    requires |b| % 2 == 0 && 1 <= k < 128
    ensures |r| == |b|
  {
    Merge(b[..|b| / 2], b[|b| / 2..], Root(Mirror(k)))
  }

  ghost function MergeLayer(s: Poly, l: nat, k: nat, m: nat): (r: Poly)
    requires Blocks(s, l, k, m) && l > 0
    ensures |r| == |s|
    decreases m
  {
    if m == 0 then []
    else
      BlocksSplit(s, l, k, m);
      NodeChildren(l, k);
      MergeBlock(s[..Two(l + 1)], k) + MergeLayer(s[Two(l + 1)..], l, k + 1, m - 1)
  }

  lemma {:induction false} InvAllTwo(a: Poly, b: Poly, s: Poly, l: nat, k: nat, m: nat)
    requires |a| == |b| == Two(l + 1) && Blocks(a + b + s, l, k, m) && m >= 2
    ensures Blocks(s, l, k + 2, m - 2) && Node(l, k) && Node(l, k + 1)
    ensures InvAll(a + b + s, l, k, m)
         == InvNtt(a, l, k) + InvNtt(b, l, k + 1) + InvAll(s, l, k + 2, m - 2)
  {
    hide Blocks, Two, InvNtt, Node;
    var t := a + b + s;
    BlocksSplit(t, l, k, m);
    assert t[..Two(l + 1)] == a && t[Two(l + 1)..] == b + s;
    BlocksSplit(b + s, l, k + 1, m - 1);
    assert (b + s)[..Two(l + 1)] == b && (b + s)[Two(l + 1)..] == s;
  }

  lemma InvAllUnfold(s: Poly, l: nat, k: nat, m: nat)
    requires Blocks(s, l, k, m) && m > 0
    ensures |s| >= Two(l + 1) && Blocks(s[Two(l + 1)..], l, k + 1, m - 1) && Node(l, k)
    ensures InvAll(s, l, k, m) == InvNtt(s[..Two(l + 1)], l, k) + InvAll(s[Two(l + 1)..], l, k + 1, m - 1)
  {
    BlocksSplit(s, l, k, m);
  }

  lemma {:induction false} InvAllCons(c: Poly, t: Poly, l: nat, k: nat, m: nat)
    requires |c| == Two(l + 1) && Blocks(c + t, l, k, m) && m > 0
    ensures Blocks(t, l, k + 1, m - 1) && Node(l, k)
    ensures InvAll(c + t, l, k, m) == InvNtt(c, l, k) + InvAll(t, l, k + 1, m - 1)
  {
    hide *;
    InvAllUnfold(c + t, l, k, m);
    assert (c + t)[..Two(l + 1)] == c && (c + t)[Two(l + 1)..] == t;
  }

  lemma MergeLayerUnfold(x: Poly, y: Poly, u: Poly, l: nat, k: nat, m: nat)
    requires |x| == |y| == Two(l) && l > 0 && Blocks(x + y + u, l, k, m) && m > 0
    ensures Blocks(u, l, k + 1, m - 1) && 1 <= k < 128
    ensures MergeLayer(x + y + u, l, k, m)
         == Merge(x, y, Root(Mirror(k))) + MergeLayer(u, l, k + 1, m - 1)
  {
    var t := x + y + u;
    BlocksSplit(t, l, k, m);
    NodeChildren(l, k);
    assert t[..Two(l + 1)] == x + y && t[Two(l + 1)..] == u;
    assert (x + y)[..Two(l)] == x && (x + y)[Two(l)..] == y;
  }

  // Merging the inverse transforms of all half blocks inverts the blocks
  lemma {:induction false} MergeOfInvAll(s: Poly, l: nat, k: nat, m: nat)
    requires Blocks(s, l, k, m) && l > 0
    ensures Blocks(s, l - 1, 2 * k, 2 * m)
    ensures Blocks(InvAll(s, l - 1, 2 * k, 2 * m), l, k, m)
    ensures MergeLayer(InvAll(s, l - 1, 2 * k, 2 * m), l, k, m) == InvAll(s, l, k, m)
    decreases m
  {
    BlocksHalve(s, l, k, m);
    if m > 0 {
      MergeOfInvAllStep(s, l, k, m);
    }
  }

  lemma TwoHalves(l: nat)
    ensures Two(l + 1) == 2 * Two(l)
  {
  }

  lemma SliceBlock(s: Poly, l: nat, k: nat, m: nat)
    requires Blocks(s, l, k, m) && l > 0 && m > 0
    ensures 2 * Two(l) <= |s| && Node(l, k) && 1 <= k < 128
    ensures s == s[..Two(l)] + s[Two(l)..2 * Two(l)] + s[2 * Two(l)..]
  {
    BlocksSplit(s, l, k, m);
    NodeChildren(l, k);
  }

  lemma {:induction false} MergeOfInvAllStep(s: Poly, l: nat, k: nat, m: nat)
    requires Blocks(s, l, k, m) && l > 0 && m > 0
    requires Blocks(s, l - 1, 2 * k, 2 * m) && Blocks(InvAll(s, l - 1, 2 * k, 2 * m), l, k, m)
    ensures MergeLayer(InvAll(s, l - 1, 2 * k, 2 * m), l, k, m) == InvAll(s, l, k, m)
    decreases m, 0
  {
    hide *;
    SliceBlock(s, l, k, m);
    var a, b, t := s[..Two(l)], s[Two(l)..2 * Two(l)], s[2 * Two(l)..];
    InvAllTwo(a, b, t, l - 1, 2 * k, 2 * m);
    TwoHalves(l);
    InvAllCons(a + b, t, l, k, m);
    InvNttHalves(a, b, l, k);
    MergeOfInvAll(t, l, k + 1, m - 1);
    var x, y := InvNtt(a, l - 1, 2 * k), InvNtt(b, l - 1, 2 * k + 1);
    MergeLayerUnfold(x, y, InvAll(t, l - 1, 2 * k + 2, 2 * m - 2), l, k, m);
  }
}
