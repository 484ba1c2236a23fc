/** The pipelined butterfly of rtl/kyber/kyber_pqc_math.v, register by register. Eight clock
    edges after a pair enters, whatever enters before and after it, the outputs are that pair's
    butterfly. */
module RtlButterfly {
  import opened ModQ
  import opened RtlMath

  // Delay lines (kyber_delay_line), newest entry first
  type Line2 = s: seq<int> | |s| == 2 witness [0, 0]
  type Line3 = s: seq<int> | |s| == 3 witness [0, 0, 0]
  type Line4 = s: seq<int> | |s| == 4 witness [0, 0, 0, 0]
  type Flags4 = s: seq<bool> | |s| == 4 witness [false, false, false, false]

  function Shift<T>(d: seq<T>, x: T): (e: seq<T>)
    requires |d| > 0
    ensures |e| == |d|
  {
    [x] + d[..|d| - 1]
  }

  // kyber_montgomery_pipe
  datatype MontPipe = MontPipe(qinv: nat, q: int, line: Line2, diff: int)

  predicate MontValid(m: MontPipe) {
    m.qinv < 65536
  }

  function MontStep(m: MontPipe, din: int): (n: MontPipe)
    requires MontValid(m)
    ensures MontValid(n)
  {
    MontPipe(MulQinv(din), MulQ(m.qinv), Shift(m.line, din), I32(m.line[1] - m.q))
  }

  // kyber_barrett_pipe
  datatype BarrettPipe = BarrettPipe(sum0: int, sum1: int, sum2: int, sum: int, q: int, line: Line3, diff: int)

  function BarrettStep(b: BarrettPipe, din: int): BarrettPipe {
    BarrettPipe(BarrettSum0(din), BarrettSum1(din), BarrettSum2(din), BarrettSum(b.sum0, b.sum1, b.sum2),
                MulQ(BarrettQuotient(b.sum)), Shift(b.line, din), BarrettDiff(b.line[2], b.q))
  }

  // kyber_ntt_butterfly
  datatype Butterfly = Butterfly(prod: int, mont: MontPipe, a: Line4, sum: Line4, mode: Flags4,
                                 barA: BarrettPipe, barB: BarrettPipe)

  predicate Valid(b: Butterfly) {
    MontValid(b.mont)
  }

  function MontOut(b: Butterfly): int {
    b.mont.diff / 65536
  }

  function WireA(b: Butterfly): int {
    if b.mode[3] then b.sum[3] else I16(b.a[3] + MontOut(b))
  }

  function WireB(b: Butterfly): int {
    if b.mode[3] then MontOut(b) else I16(b.a[3] - MontOut(b))
  }

  const ZERO_MONT: MontPipe := MontPipe(0, 0, [0, 0], 0)
  const ZERO_BARRETT: BarrettPipe := BarrettPipe(0, 0, 0, 0, 0, [0, 0, 0], 0)

  // The product register has no reset
  function Step(b: Butterfly, rst: bool, i: BfIn): (c: Butterfly)
    requires Valid(b)
    ensures Valid(c)
  {
    if rst then
      Butterfly(Product(i), ZERO_MONT, [0, 0, 0, 0], [0, 0, 0, 0], [false, false, false, false], ZERO_BARRETT,
        ZERO_BARRETT)
    else
      Butterfly(Product(i), MontStep(b.mont, b.prod), Shift(b.a, i.a), Shift(b.sum, I16(i.a + i.b)),
        Shift(b.mode, i.mode),
                BarrettStep(b.barA, WireA(b)), BarrettStep(b.barB, WireB(b)))
  }

  // ----- Depth k of the pipeline holds the pair i -----

  predicate Operands(b: Butterfly, k: nat, i: BfIn)
    requires k < 4
  {
    b.a[k] == i.a && b.sum[k] == I16(i.a + i.b) && b.mode[k] == i.mode
  }

  predicate BarrettHolds(b: BarrettPipe, k: nat, x: int) {
    match k
    case 1 => b.sum0 == BarrettSum0(x) && b.sum1 == BarrettSum1(x) && b.sum2 == BarrettSum2(x) && b.line[0] == x
    case 2 => b.sum == BarrettSum(BarrettSum0(x), BarrettSum1(x), BarrettSum2(x)) && b.line[1] == x
    case 3 => b.q == MulQ(BarrettQuotient(BarrettSum(BarrettSum0(x), BarrettSum1(x), BarrettSum2(x)))) && b.line[2] == x
    case _ => b.diff == FloorBarrett(x)
  }

  predicate HoldsAt(b: Butterfly, k: nat, i: BfIn) {
    var p := Product(i);
    match k
    case 1 => b.prod == p && Operands(b, 0, i)
    case 2 => b.mont.qinv == MulQinv(p) && b.mont.line[0] == p && Operands(b, 1, i)
    case 3 => b.mont.q == MulQ(MulQinv(p)) && b.mont.line[1] == p && Operands(b, 2, i)
    case 4 => b.mont.diff == MontDiff(p) && Operands(b, 3, i)
    case _ => k > 4 && BarrettHolds(b.barA, k - 4, RawA(i)) && BarrettHolds(b.barB, k - 4, RawB(i))
  }

  lemma {:induction false} Enters(b: Butterfly, i: BfIn)
    requires Valid(b)
    ensures HoldsAt(Step(b, false, i), 1, i)
  {
    hide MulQinv, MulQ, I32, I16, BarrettSum0, BarrettSum1, BarrettSum2, BarrettSum, BarrettQuotient, BarrettDiff,
      Product;
  }

  lemma BarrettAdvances(b: BarrettPipe, k: nat, x: int, din: int)
    requires 1 <= k < 4 && BarrettHolds(b, k, x)
    ensures BarrettHolds(BarrettStep(b, din), k + 1, x)
  {
    hide MulQ, BarrettSum0, BarrettSum1, BarrettSum2, BarrettSum, BarrettQuotient, BarrettDiff;
  }

  lemma BarrettEnters(b: BarrettPipe, x: int)
    ensures BarrettHolds(BarrettStep(b, x), 1, x)
  {
    hide MulQ, BarrettSum0, BarrettSum1, BarrettSum2, BarrettSum, BarrettQuotient, BarrettDiff;
  }

  lemma {:induction false} Advances(b: Butterfly, k: nat, i: BfIn, j: BfIn)
    requires Valid(b) && 1 <= k < 8 && HoldsAt(b, k, i)
    ensures HoldsAt(Step(b, false, j), k + 1, i)
  {
    hide MulQinv, MulQ, I32, I16, BarrettStep, BarrettHolds, Product;
    if k == 4 {
      assert WireA(b) == RawA(i) && WireB(b) == RawB(i);
      BarrettEnters(b.barA, RawA(i));
      BarrettEnters(b.barB, RawB(i));
    } else if k > 4 {
      BarrettAdvances(b.barA, k - 4, RawA(i), WireA(b));
      BarrettAdvances(b.barB, k - 4, RawB(i), WireB(b));
    }
  }

  lemma Leaves(b: Butterfly, i: BfIn)
    requires HoldsAt(b, 8, i)
    ensures b.barA.diff == OutA(i) && b.barB.diff == OutB(i)
  {
  }
}
