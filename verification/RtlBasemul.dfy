/** The pipelined base multiplication and conversion of rtl/kyber/kyber_pqc_math.v and
    kyber_pwma_local.v: five products, five Montgomery units, two Barrett units, then a Montgomery
    multiplication by 2^32 mod q or a plain delay. Sixteen edges after a pair enters, its result is
    at the outputs. */
module RtlBasemul {
  import opened ModQ
  import opened RtlMath
  import opened RtlButterfly
  import opened PolyRing

  datatype BmIn = BmIn(a0: int, a1: int, b0: int, b1: int, zeta: int)

  datatype Pair = Pair(c0: int, c1: int)

  // kyber_basemul_pipe
  datatype Basemul = Basemul(p0: int, p1: int, p2: int, p3: int, p4: int,
                             m0: MontPipe, m1: MontPipe, m2: MontPipe, m3: MontPipe, m4: MontPipe,
                             zeta: Line4, red0: Line4, sum0: int, sum1: int, sum1Line: Line4,
                             bar0: BarrettPipe, bar1: BarrettPipe)

  predicate BmValid(b: Basemul) {
    MontValid(b.m0) && MontValid(b.m1) && MontValid(b.m2) && MontValid(b.m3) && MontValid(b.m4)
  }

  function Red(m: MontPipe): int {
    m.diff / 65536
  }

  function BmStep(b: Basemul, i: BmIn): (c: Basemul)
    requires BmValid(b)
    ensures BmValid(c)
  {
    Basemul(i.a0 * i.b0, i.a1 * i.b1, i.a0 * i.b1, i.a1 * i.b0, b.zeta[3] * Red(b.m1),
            MontStep(b.m0, b.p0), MontStep(b.m1, b.p1), MontStep(b.m2, b.p2), MontStep(b.m3, b.p3),
              MontStep(b.m4, b.p4),
            Shift(b.zeta, i.zeta), Shift(b.red0, Red(b.m0)), I16(b.red0[3] + Red(b.m4)), I16(Red(b.m2) + Red(b.m3)),
            Shift(b.sum1Line, b.sum1), BarrettStep(b.bar0, b.sum0), BarrettStep(b.bar1, b.sum1Line[3]))
  }

  // The product registers have no reset
  function BmReset(b: Basemul, i: BmIn): (c: Basemul)
    ensures BmValid(c)
  {
    Basemul(i.a0 * i.b0, i.a1 * i.b1, i.a0 * i.b1, i.a1 * i.b0, b.zeta[3] * Red(b.m1),
            ZERO_MONT, ZERO_MONT, ZERO_MONT, ZERO_MONT, ZERO_MONT, [0, 0, 0, 0], [0, 0, 0, 0], 0, 0, [0, 0, 0, 0],
            ZERO_BARRETT, ZERO_BARRETT)
  }

  // ----- What each depth holds -----

  function Prod(i: BmIn, k: nat): int {
    match k
    case 0 => i.a0 * i.b0
    case 1 => i.a1 * i.b1
    case 2 => i.a0 * i.b1
    case _ => i.a1 * i.b0
  }

  function LastProd(i: BmIn): int {
    i.zeta * Mont(Prod(i, 1))
  }

  function Sum0(i: BmIn): int {
    I16(Mont(Prod(i, 0)) + Mont(LastProd(i)))
  }

  function Sum1(i: BmIn): int {
    I16(Mont(Prod(i, 2)) + Mont(Prod(i, 3)))
  }

  predicate MontHolds(m: MontPipe, k: nat, x: int) {
    match k
    case 1 => m.qinv == MulQinv(x) && m.line[0] == x
    case 2 => m.q == MulQ(MulQinv(x)) && m.line[1] == x
    case _ => m.diff == MontDiff(x)
  }

  lemma MontEnters(m: MontPipe, x: int)
    requires MontValid(m)
    ensures MontHolds(MontStep(m, x), 1, x)
  {
    hide MulQ, MulQinv, I32;
  }

  lemma MontAdvances(m: MontPipe, k: nat, x: int, din: int)
    requires MontValid(m) && 1 <= k <= 2 && MontHolds(m, k, x)
    ensures MontHolds(MontStep(m, din), k + 1, x)
  {
    hide MulQ, MulQinv, I32;
  }

  predicate FrontHolds(b: Basemul, k: nat, i: BmIn)
    requires 1 <= k <= 4
  {
    && b.zeta[k - 1] == i.zeta
    && if k == 1 then
         b.p0 == Prod(i, 0) && b.p1 == Prod(i, 1) && b.p2 == Prod(i, 2) && b.p3 == Prod(i, 3)
       else
         (MontHolds(b.m0, k - 1, Prod(i, 0)) && MontHolds(b.m1, k - 1, Prod(i, 1))
          && MontHolds(b.m2, k - 1, Prod(i, 2)) && MontHolds(b.m3, k - 1, Prod(i, 3)))
  }

  predicate MiddleHolds(b: Basemul, k: nat, i: BmIn)
    requires 5 <= k <= 8
  {
    && b.red0[k - 5] == Mont(Prod(i, 0))
    && (if k == 5 then b.p4 == LastProd(i) && b.sum1 == Sum1(i)
        else MontHolds(b.m4, k - 5, LastProd(i)) && b.sum1Line[k - 6] == Sum1(i))
  }

  predicate HoldsBm(b: Basemul, k: nat, i: BmIn)
    requires 1 <= k <= 13
  {
    if k <= 4 then FrontHolds(b, k, i)
    else if k <= 8 then MiddleHolds(b, k, i)
    else if k == 9 then b.sum0 == Sum0(i) && b.sum1Line[3] == Sum1(i)
    else BarrettHolds(b.bar0, k - 9, Sum0(i)) && BarrettHolds(b.bar1, k - 9, Sum1(i))
  }

  lemma BmEnters(b: Basemul, i: BmIn)
    requires BmValid(b)
    ensures HoldsBm(BmStep(b, i), 1, i)
  {
    hide MontStep, BarrettStep, MontHolds, BarrettHolds, I16, Red;
  }

  lemma RedIs(m: MontPipe, x: int)
    requires MontHolds(m, 3, x)
    ensures Red(m) == Mont(x)
  {
    hide MontDiff;
  }

  lemma FrontAdvances(b: Basemul, k: nat, i: BmIn, j: BmIn)
    requires BmValid(b) && 1 <= k <= 4 && FrontHolds(b, k, i)
    ensures HoldsBm(BmStep(b, j), k + 1, i)
  {
    hide MontStep, BarrettStep, MontHolds, BarrettHolds, I16, Red, Mont, Prod;
    if k == 1 {
      MontEnters(b.m0, b.p0);
      MontEnters(b.m1, b.p1);
      MontEnters(b.m2, b.p2);
      MontEnters(b.m3, b.p3);
    } else if k < 4 {
      MontAdvances(b.m0, k - 1, Prod(i, 0), b.p0);
      MontAdvances(b.m1, k - 1, Prod(i, 1), b.p1);
      MontAdvances(b.m2, k - 1, Prod(i, 2), b.p2);
      MontAdvances(b.m3, k - 1, Prod(i, 3), b.p3);
    } else {
      RedIs(b.m0, Prod(i, 0));
      RedIs(b.m1, Prod(i, 1));
      RedIs(b.m2, Prod(i, 2));
      RedIs(b.m3, Prod(i, 3));
    }
  }

  lemma MiddleAdvances(b: Basemul, k: nat, i: BmIn, j: BmIn)
    requires BmValid(b) && 5 <= k <= 8 && MiddleHolds(b, k, i)
    ensures HoldsBm(BmStep(b, j), k + 1, i)
  {
    hide MontStep, BarrettStep, MontHolds, BarrettHolds, I16, Red, Mont, Prod, LastProd;
    if k == 5 {
      MontEnters(b.m4, b.p4);
    } else if k < 8 {
      MontAdvances(b.m4, k - 5, LastProd(i), b.p4);
    } else {
      RedIs(b.m4, LastProd(i));
    }
  }

  lemma {:induction false} BmAdvances(b: Basemul, k: nat, i: BmIn, j: BmIn)
    requires BmValid(b) && 1 <= k < 13 && HoldsBm(b, k, i)
    ensures HoldsBm(BmStep(b, j), k + 1, i)
  {
    if k <= 4 {
      FrontAdvances(b, k, i, j);
    } else if k <= 8 {
      MiddleAdvances(b, k, i, j);
    } else {
      BackAdvances(b, k, i, j);
    }
  }

  lemma BackAdvances(b: Basemul, k: nat, i: BmIn, j: BmIn)
    requires BmValid(b) && 9 <= k < 13 && HoldsBm(b, k, i)
    ensures HoldsBm(BmStep(b, j), k + 1, i)
  {
    hide MontStep, BarrettStep, BarrettHolds, I16, Red, Mont, Prod, LastProd, Sum0, Sum1;
    if k == 9 {
      BarrettEnters(b.bar0, Sum0(i));
      BarrettEnters(b.bar1, Sum1(i));
    } else {
      BarrettAdvances(b.bar0, k - 9, Sum0(i), b.sum0);
      BarrettAdvances(b.bar1, k - 9, Sum1(i), b.sum1Line[3]);
    }
  }

  // The thirteen-edge result: the reference basemul, Barrett reduced with rounding down
  function Base(i: BmIn): Pair {
    Pair(FloorBarrett(Sum0(i)), FloorBarrett(Sum1(i)))
  }

  lemma BmLeaves(b: Basemul, i: BmIn)
    requires HoldsBm(b, 13, i)
    ensures Pair(b.bar0.diff, b.bar1.diff) == Base(i)
  {
    hide FloorBarrett, Sum0, Sum1;
  }

  lemma {:induction false} BaseIsReference(i: BmIn)
    ensures var r := BasemulC(i.a0, i.a1, i.b0, i.b1, i.zeta);
      Base(i) == Pair(FloorBarrett(r.0), FloorBarrett(r.1))
  {
    hide Mont, MontgomeryReduce, FloorBarrett;
    MontIsReference(Prod(i, 0));
    MontIsReference(Prod(i, 1));
    MontIsReference(Prod(i, 2));
    MontIsReference(Prod(i, 3));
    MontIsReference(LastProd(i));
    assert i.zeta * MontgomeryReduce(i.a1 * i.b1) == MontgomeryReduce(i.a1 * i.b1) * i.zeta;
  }

  // ----- The conversion stage -----

  // mul_tomont_shiftadd_s16
  function MulTomont(x: int): int {
    1024 * x + 256 * x + 64 * x + 8 * x + x
  }

  datatype Convert = Convert(t0: MontPipe, t1: MontPipe, d0: Line3, d1: Line3)

  predicate ConvertValid(c: Convert) {
    MontValid(c.t0) && MontValid(c.t1)
  }

  function ConvertStep(c: Convert, p: Pair): (d: Convert)
    requires ConvertValid(c)
    ensures ConvertValid(d)
  {
    Convert(MontStep(c.t0, MulTomont(p.c0)), MontStep(c.t1, MulTomont(p.c1)), Shift(c.d0, p.c0), Shift(c.d1, p.c1))
  }

  const ZERO_CONVERT: Convert := Convert(ZERO_MONT, ZERO_MONT, [0, 0, 0], [0, 0, 0])

  function Selected(c: Convert, tomont: bool): Pair {
    if tomont then Pair(Red(c.t0), Red(c.t1)) else Pair(c.d0[2], c.d1[2])
  }

  function Converted(p: Pair, tomont: bool): Pair {
    if tomont then Pair(Mont(MulTomont(p.c0)), Mont(MulTomont(p.c1))) else p
  }

  predicate HoldsConvert(c: Convert, k: nat, p: Pair)
    requires 1 <= k <= 3
  {
    && MontHolds(c.t0, k, MulTomont(p.c0)) && MontHolds(c.t1, k, MulTomont(p.c1))
    && c.d0[k - 1] == p.c0 && c.d1[k - 1] == p.c1
  }

  lemma ConvertEnters(c: Convert, p: Pair)
    requires ConvertValid(c)
    ensures HoldsConvert(ConvertStep(c, p), 1, p)
  {
    hide MontStep, MontHolds, MulTomont;
    MontEnters(c.t0, MulTomont(p.c0));
    MontEnters(c.t1, MulTomont(p.c1));
  }

  lemma ConvertAdvances(c: Convert, k: nat, p: Pair, q: Pair)
    requires ConvertValid(c) && 1 <= k <= 2 && HoldsConvert(c, k, p)
    ensures HoldsConvert(ConvertStep(c, q), k + 1, p)
  {
    hide MontStep, MontHolds, MulTomont;
    MontAdvances(c.t0, k, MulTomont(p.c0), MulTomont(q.c0));
    MontAdvances(c.t1, k, MulTomont(p.c1), MulTomont(q.c1));
  }

  lemma ConvertLeaves(c: Convert, p: Pair, tomont: bool)
    requires HoldsConvert(c, 3, p)
    ensures Selected(c, tomont) == Converted(p, tomont)
  {
    hide MontHolds, MulTomont, Mont, Red;
    RedIs(c.t0, MulTomont(p.c0));
    RedIs(c.t1, MulTomont(p.c1));
  }
}
