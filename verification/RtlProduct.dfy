/** The hardware datapath as a whole: two forward runs of the NTT core, one run of the
    multiply-accumulate engine, one inverse run and the final scaling leave the canonical
    coefficients of the product in Z_q[X]/(X^256 + 1). */
module RtlProduct {
  import opened ModQ
  import opened Ring
  import opened Zetas
  import opened NttSpec
  import opened NttImpl
  import opened InvNttImpl
  import opened PolyRing
  import opened RtlCodec
  import P = RtlBasemul
  import N = RtlNttCore
  import NP = RtlNttProof
  import W = RtlPwma
  import WP = RtlPwmaProof

  // The pairs of the words hold the coefficients of s, in order
  predicate PairsOf(words: seq<P.Pair>, s: Poly)
    requires |words| == 128 && |s| == 256
  {
    forall k :: 0 <= k < 128 ==> words[k] == P.Pair(s[2 * k], s[2 * k + 1])
  }

  // One bank of a RAM
  function Bank(r: W.Ram, bank: nat): (w: seq<P.Pair>)
    requires bank < 2
    ensures |w| == 128
  {
    r[128 * bank..128 * bank + 128]
  }

  // A forward run from one polynomial to its transform
  ghost predicate Transformed(c: N.Core, ps: seq<N.Pins>, a: Poly, u: Poly) {
    && NP.Ready(c) && NP.Driven(ps, false, false) && |ps| == 2 + 7 * 142
    && N.Tick(c, ps[0]).ram0 == a && NP.InRange(a) && u == NP.Run(c, ps).ram1
  }

  // A product run on a bank that holds u, fed with v, that ended with h in its result bank
  ghost predicate Multiplied(w: W.Pwma, first: W.Pins, ws: seq<W.Pins>, plan: WP.Plan, u: Poly, v: Poly, h: Poly)
    requires |u| == |v| == |h| == 256
  {
    && WP.Idle(w) && first.start && WP.Quiet(first, plan) && WP.AllQuiet(ws, plan)
    && plan == WP.Plan(first.job, first.useTomont, w.acc, w.operands) && !first.job.accumulate && !first.useTomont
    && first.job.bank < 2 && first.job.operandBank < 2
    && PairsOf(Bank(w.operands, first.job.operandBank), u)
    && W.Valid(W.Tick(w, first)) && WP.StaysBusy(W.Tick(w, first), ws)
    && WP.Run(W.Tick(w, first), ws).done
    && PairsOf(Bank(WP.Run(W.Tick(w, first), ws).acc, first.job.bank), h)
    && |WP.Accepted(W.Tick(w, first), ws)| == 128 && PairsOf(WP.Accepted(W.Tick(w, first), ws), v)
  }

  // An inverse run from h
  ghost predicate Inverted(c: N.Core, ps: seq<N.Pins>, h: Poly, g: Poly) {
    && NP.Ready(c) && NP.Driven(ps, true, true) && |ps| == 2 + 7 * 143
    && N.Tick(c, ps[0]).ram0 == h && NP.InRange(h) && g == NP.Run(c, ps).ram1
  }

  lemma {:induction false} TransformIs(c: N.Core, ps: seq<N.Pins>, a: Poly, u: Poly)
    requires Transformed(c, ps, a, u)
    ensures |a| == |u| == 256 == Two(BITS + 1) && Bounded(u, Q) && CongSeq(u, Ntt(a, BITS, 1))
  {
    hide NP.Ready, NP.Driven, NP.Run, N.Tick, CtLayers, Ntt, CongSeq;
    NP.ForwardRun(c, ps);
    assert Bounded(a, Q);
    NttCOk(a, Q);
    CongSeqTrans(u, CtLayers(a, BITS), Ntt(a, BITS, 1));
  }

  // Each word of the result bank is the reference basemul, canonical
  lemma {:induction false} WordIs(w: W.Pwma, first: W.Pins, ws: seq<W.Pins>, plan: WP.Plan, u: Poly, v: Poly, h: Poly,
    k: nat)
    requires |u| == |v| == |h| == 256 && Multiplied(w, first, ws, plan, u, v, h) && k < 128
    ensures 0 <= h[2 * k] < Q && 0 <= h[2 * k + 1] < Q
    ensures Cong(h[2 * k], BasemulAt(u, v, k).0) && Cong(h[2 * k + 1], BasemulAt(u, v, k).1)
  {
    hide W.ValidPins, W.Empty, WP.Run, WP.Accepted, WP.StaysBusy, W.Tick, W.Valid, Cong, WP.Outcome, BasemulC,
      PairZeta;
    WP.RunDelivers(w, first, ws, plan);
    var s := WP.Accepted(W.Tick(w, first), ws);
    WP.OutcomeIs(plan, k, s[k]);
    assert Bank(w.operands, first.job.operandBank)[k] == P.Pair(u[2 * k], u[2 * k + 1]);
    assert WP.OperandAt(plan, k) == P.Pair(u[2 * k], u[2 * k + 1]);
    assert Bank(WP.Run(W.Tick(w, first), ws).acc, first.job.bank)[k] == WP.Outcome(plan, k, s[k]);
  }

  lemma {:induction false} ProductIs(w: W.Pwma, first: W.Pins, ws: seq<W.Pins>, plan: WP.Plan, u: Poly, v: Poly,
    h: Poly)
    requires |u| == |v| == |h| == 256 && Multiplied(w, first, ws, plan, u, v, h)
    ensures Bounded(h, Q - 1) && CongSeq(h, BasemulAll(u, v))
  {
    hide Multiplied, Cong, BasemulC, PairZeta;
    forall i | 0 <= i < 256
      ensures 0 <= h[i] < Q && Cong(h[i], BasemulAll(u, v)[i])
    {
      WordIs(w, first, ws, plan, u, v, h, i / 2);
      BasemulAllPair(u, v, i / 2);
      if i % 2 == 0 { assert 2 * (i / 2) == i; } else { assert 2 * (i / 2) + 1 == i; }
    }
  }

  // u and v stand for transforms, so h stands for the transform of the product
  lemma {:induction false} ProductDomain(a: Poly, b: Poly, u: Poly, v: Poly, h: Poly)
    requires |a| == |b| == |u| == |v| == |h| == 256 == Two(BITS + 1) && Bounded(u, Q) && Bounded(v, Q)
    requires CongSeq(u, Ntt(a, BITS, 1)) && CongSeq(v, Ntt(b, BITS, 1))
    requires Bounded(h, Q - 1) && CongSeq(h, BasemulAll(u, v))
    ensures CongSeq(InvNttC(h), Mul(a, b, -1))
  {
    hide *;
    TopNode();
    var x, y := Ntt(a, BITS, 1), Ntt(b, BITS, 1);
    UnitFits(u, v);
    BasemulAllOk(u, v, Q, Q);
    CongRefl(65536);
    ScaleCong(65536, 65536, h, BasemulAll(u, v));
    NttMulCong(u, x, v, y, BITS, 1);
    CongSeqTrans(Scale(65536, h), Scale(65536, BasemulAll(u, v)), NttMul(u, v, BITS, 1));
    CongSeqTrans(Scale(65536, h), NttMul(u, v, BITS, 1), NttMul(x, y, BITS, 1));
    ProductThroughTransform(a, b);
    WidenBound(h, Q - 1, 16383);
    InvNttCOfMont(h, NttMul(x, y, BITS, 1), Mul(a, b, -1));
  }

  lemma UnitFits(u: Poly, v: Poly)
    requires Bounded(u, Q) && Bounded(v, Q)
    ensures ProductsFit(u, v, Q, Q) && Q - 1 <= 16383
  {
  }

  lemma {:induction false} FinishedIs(c: N.Core, ps: seq<N.Pins>, h: Poly, g: Poly, i: nat)
    requires |h| == 256 && Inverted(c, ps, h, g) && i < 256
    ensures |g| == 256 && Finish(g[i]) == InvNttC(h)[i] % Q
  {
    hide NP.Ready, NP.Driven, NP.Run, N.Tick, GsLayers, Finish, FinalFqmul, Cong, NP.InRange;
    NP.InverseRun(c, ps);
    GsLayersFit(h);
    FinishIs(g[i], GsLayers(h, BITS)[i]);
  }

  lemma {:induction false} HardwareProduct(
      ca: N.Core, pa: seq<N.Pins>, cb: N.Core, pb: seq<N.Pins>, w: W.Pwma, first: W.Pins, ws: seq<W.Pins>,
        plan: WP.Plan,
      ci: N.Core, pi: seq<N.Pins>, a: Poly, b: Poly, u: Poly, v: Poly, h: Poly, g: Poly)
    requires |a| == |b| == |u| == |v| == |h| == 256
    requires Transformed(ca, pa, a, u) && Transformed(cb, pb, b, v)
    requires Multiplied(w, first, ws, plan, u, v, h) && Inverted(ci, pi, h, g)
    ensures |g| == 256 && forall i :: 0 <= i < 256 ==> Finish(g[i]) == Mul(a, b, -1)[i] % Q
  {
    hide Transformed, Multiplied, Inverted, Finish, InvNttC, Mul, Ntt, BasemulAll, Bounded, Cong;
    TransformIs(ca, pa, a, u);
    TransformIs(cb, pb, b, v);
    ProductIs(w, first, ws, plan, u, v, h);
    ProductDomain(a, b, u, v, h);
    FinishedIs(ci, pi, h, g, 0);
    forall i | 0 <= i < 256
      ensures Finish(g[i]) == Mul(a, b, -1)[i] % Q
    {
      FinishedIs(ci, pi, h, g, i);
      CongRemainder(InvNttC(h)[i], Mul(a, b, -1)[i]);
    }
  }
}
