/** Keccak-f[1600] twice (section 3 of FIPS 202): the round of rtl/kyber/keccak_round_function.v,
    lane by lane, and the C permutation of kyber/ref/fips202.c, whose two rounds per iteration
    rename the lanes instead of moving them. */
module KeccakPerm {
  import opened Sponge

  // ----- keccak_round_function -----

  function Left(x: Lane, n: Lane): Lane
    requires 0 < n < 64
  {
    x << n
  }

  function Right(x: Lane, n: Lane): Lane
    requires 0 < n < 64
  {
    x >> (64 - n)
  }

  function Or(x: Lane, y: Lane): Lane {
    x | y
  }

  // {x[63-n:0], x[63:64-n]}
  function Rotate(x: Lane, n: Lane): Lane
    requires 0 < n < 64
  {
    Or(Left(x, n), Right(x, n))
  }

  function AndNot(a: Lane, b: Lane): Lane {
    !a & b
  }

  function Column(s: Lanes, x: nat): Lane
    requires x < 5
  {
    Xor(Xor(Xor(Xor(s[x], s[x + 5]), s[x + 10]), s[x + 15]), s[x + 20])
  }

  function ThetaD(s: Lanes, x: nat): Lane
    requires x < 5
  {
    Xor(Column(s, (x + 4) % 5), Rotate(Column(s, (x + 1) % 5), 1))
  }

  // Lane i is column i % 5, row i / 5
  function Theta(s: Lanes, i: nat): Lane
    requires i < 25
  {
    Xor(ThetaD(s, i % 5), s[i])
  }

  function RhoPi(s: Lanes, i: nat): Lane
    requires i < 25
  {
    match i
    case 0 => Theta(s, 0)
    case 1 => Rotate(Theta(s, 6), 44)
    case 2 => Rotate(Theta(s, 12), 43)
    case 3 => Rotate(Theta(s, 18), 21)
    case 4 => Rotate(Theta(s, 24), 14)
    case 5 => Rotate(Theta(s, 3), 28)
    case 6 => Rotate(Theta(s, 9), 20)
    case 7 => Rotate(Theta(s, 10), 3)
    case 8 => Rotate(Theta(s, 16), 45)
    case 9 => Rotate(Theta(s, 22), 61)
    case 10 => Rotate(Theta(s, 1), 1)
    case 11 => Rotate(Theta(s, 7), 6)
    case 12 => Rotate(Theta(s, 13), 25)
    case 13 => Rotate(Theta(s, 19), 8)
    case 14 => Rotate(Theta(s, 20), 18)
    case 15 => Rotate(Theta(s, 4), 27)
    case 16 => Rotate(Theta(s, 5), 36)
    case 17 => Rotate(Theta(s, 11), 10)
    case 18 => Rotate(Theta(s, 17), 15)
    case 19 => Rotate(Theta(s, 23), 56)
    case 20 => Rotate(Theta(s, 2), 62)
    case 21 => Rotate(Theta(s, 8), 55)
    case 22 => Rotate(Theta(s, 14), 39)
    case 23 => Rotate(Theta(s, 15), 41)
    case _ => Rotate(Theta(s, 21), 2)
  }

  function Chi(s: Lanes, x: nat, y: nat): Lane
    requires x < 5 && y < 5
  {
    Xor(RhoPi(s, x + 5 * y), AndNot(RhoPi(s, (x + 1) % 5 + 5 * y), RhoPi(s, (x + 2) % 5 + 5 * y)))
  }

  function RoundLane(s: Lanes, rc: Lane, i: nat): Lane
    requires i < 25
  {
    if i == 0 then Xor(Chi(s, 0, 0), rc) else Chi(s, i % 5, i / 5)
  }

  function Round(s: Lanes, rc: Lane): Lanes {
    seq(25, i requires 0 <= i < 25 => RoundLane(s, rc, i))
  }

  // KeccakF_RoundConstants
  function RoundConstant(i: nat): Lane
    requires i < 24
  {
    match i
    case 0 => 0x0000_0000_0000_0001
    case 1 => 0x0000_0000_0000_8082
    case 2 => 0x8000_0000_0000_808A
    case 3 => 0x8000_0000_8000_8000
    case 4 => 0x0000_0000_0000_808B
    case 5 => 0x0000_0000_8000_0001
    case 6 => 0x8000_0000_8000_8081
    case 7 => 0x8000_0000_0000_8009
    case 8 => 0x0000_0000_0000_008A
    case 9 => 0x0000_0000_0000_0088
    case 10 => 0x0000_0000_8000_8009
    case 11 => 0x0000_0000_8000_000A
    case 12 => 0x0000_0000_8000_808B
    case 13 => 0x8000_0000_0000_008B
    case 14 => 0x8000_0000_0000_8089
    case 15 => 0x8000_0000_0000_8003
    case 16 => 0x8000_0000_0000_8002
    case 17 => 0x8000_0000_0000_0080
    case 18 => 0x0000_0000_0000_800A
    case 19 => 0x8000_0000_8000_000A
    case 20 => 0x8000_0000_8000_8081
    case 21 => 0x8000_0000_0000_8080
    case 22 => 0x0000_0000_8000_0001
    case _ => 0x8000_0000_8000_8008
  }

  function Rounds(s: Lanes, n: nat): Lanes
    requires n <= 24
  {
    if n == 0 then s else Round(Rounds(s, n - 1), RoundConstant(n - 1))
  }

  // The permutation: 24 rounds
  function KeccakF(s: Lanes): Lanes {
    Rounds(s, 24)
  }

  // ----- KeccakF1600_StatePermute -----

  function Rol(a: Lane, offset: Lane): Lane
    requires 0 < offset < 64
  {
    Xor(Left(a, offset), Right(a, offset))
  }

  predicate Apart(x: Lane, y: Lane) {
    x & y == 0
  }

  lemma ShiftsApart(a: Lane, n: Lane)
    requires 0 < n < 64
    ensures Apart(Left(a, n), Right(a, n))
  {
  }

  lemma OrIsXorBits(x: bv64, y: bv64)
    requires x & y == 0
    ensures x | y == x ^ y
  {
  }

  lemma OrOfApart(x: Lane, y: Lane)
    requires Apart(x, y)
    ensures Or(x, y) == Xor(x, y)
  {
    OrIsXorBits(x, y);
  }

  lemma RolIsRotate(a: Lane, n: Lane)
    requires 0 < n < 64
    ensures Rol(a, n) == Rotate(a, n)
  {
    hide Left, Right, Apart, Or, Xor;
    ShiftsApart(a, n);
    OrOfApart(Left(a, n), Right(a, n));
  }

  lemma XorComm(a: Lane, b: Lane)
    ensures Xor(a, b) == Xor(b, a)
  {
  }

  lemma ThetaColumn(s: Lanes, x: nat)
    requires x < 5
    ensures Xor(Column(s, (x + 4) % 5), Rol(Column(s, (x + 1) % 5), 1)) == ThetaD(s, x)
  {
    hide Xor, Rotate, Rol, Column;
    RolIsRotate(Column(s, (x + 1) % 5), 1);
  }

  // C adds theta's D on the right and rotates with an exclusive or
  lemma ThetaRotated(s: Lanes, i: nat, n: Lane)
    requires i < 25 && 0 < n < 64
    ensures Rol(Xor(s[i], ThetaD(s, i % 5)), n) == Rotate(Theta(s, i), n)
  {
    hide Xor, Rotate, Rol, ThetaD;
    XorComm(s[i], ThetaD(s, i % 5));
    RolIsRotate(Theta(s, i), n);
  }

  lemma ThetaPlain(s: Lanes, i: nat)
    requires i < 25
    ensures Xor(s[i], ThetaD(s, i % 5)) == Theta(s, i)
  {
    hide Xor, ThetaD;
    XorComm(s[i], ThetaD(s, i % 5));
  }

  // Chi on one row
  lemma Plane(s: Lanes, y: nat, a: Lane, e: Lane, i: Lane, o: Lane, u: Lane)
    requires y < 5
    requires a == RhoPi(s, 5 * y) && e == RhoPi(s, 5 * y + 1) && i == RhoPi(s, 5 * y + 2)
    requires o == RhoPi(s, 5 * y + 3) && u == RhoPi(s, 5 * y + 4)
    ensures Chi(s, 0, y) == Xor(a, AndNot(e, i)) && Chi(s, 1, y) == Xor(e, AndNot(i, o))
    ensures Chi(s, 2, y) == Xor(i, AndNot(o, u)) && Chi(s, 3, y) == Xor(o, AndNot(u, a))
    ensures Chi(s, 4, y) == Xor(u, AndNot(a, e))
  {
    hide Xor, AndNot, RhoPi;
  }

  predicate ThetaWords(a: Lanes, dA: Lane, dE: Lane, dI: Lane, dO: Lane, dU: Lane) {
    dA == ThetaD(a, 0) && dE == ThetaD(a, 1) && dI == ThetaD(a, 2) && dO == ThetaD(a, 3) && dU == ThetaD(a, 4)
  }

  // ----- The five row steps, with the lane names of the source -----

  method PlaneB(a: Lanes, dA: Lane, dE: Lane, dI: Lane, dO: Lane, dU: Lane, rc: Lane)
    returns (eBa: Lane, eBe: Lane, eBi: Lane, eBo: Lane, eBu: Lane)
    requires ThetaWords(a, dA, dE, dI, dO, dU)
    ensures eBa == Xor(Chi(a, 0, 0), rc) && RowIs(a, 0, Chi(a, 0, 0), eBe, eBi, eBo, eBu)
  {
    hide Xor, Rotate, Rol, AndNot, Column, ThetaD, Theta, Chi;
    var aBa := Xor(a[0], dA);
    var bcA := aBa;
    ThetaPlain(a, 0);
    var aGe := Xor(a[6], dE);
    var bcE := Rol(aGe, 44);
    ThetaRotated(a, 6, 44);
    var aKi := Xor(a[12], dI);
    var bcI := Rol(aKi, 43);
    ThetaRotated(a, 12, 43);
    var aMo := Xor(a[18], dO);
    var bcO := Rol(aMo, 21);
    ThetaRotated(a, 18, 21);
    var aSu := Xor(a[24], dU);
    var bcU := Rol(aSu, 14);
    ThetaRotated(a, 24, 14);
    Plane(a, 0, bcA, bcE, bcI, bcO, bcU);
    eBa := Xor(bcA, AndNot(bcE, bcI));
    eBa := Xor(eBa, rc);
    eBe := Xor(bcE, AndNot(bcI, bcO));
    eBi := Xor(bcI, AndNot(bcO, bcU));
    eBo := Xor(bcO, AndNot(bcU, bcA));
    eBu := Xor(bcU, AndNot(bcA, bcE));
  }

  method PlaneG(a: Lanes, dA: Lane, dE: Lane, dI: Lane, dO: Lane, dU: Lane)
    returns (eGa: Lane, eGe: Lane, eGi: Lane, eGo: Lane, eGu: Lane)
    requires ThetaWords(a, dA, dE, dI, dO, dU)
    ensures RowIs(a, 1, eGa, eGe, eGi, eGo, eGu)
  {
    hide Xor, Rotate, Rol, AndNot, Column, ThetaD, Theta, Chi;
    var aBo := Xor(a[3], dO);
    var bcA := Rol(aBo, 28);
    ThetaRotated(a, 3, 28);
    var aGu := Xor(a[9], dU);
    var bcE := Rol(aGu, 20);
    ThetaRotated(a, 9, 20);
    var aKa := Xor(a[10], dA);
    var bcI := Rol(aKa, 3);
    ThetaRotated(a, 10, 3);
    var aMe := Xor(a[16], dE);
    var bcO := Rol(aMe, 45);
    ThetaRotated(a, 16, 45);
    var aSi := Xor(a[22], dI);
    var bcU := Rol(aSi, 61);
    ThetaRotated(a, 22, 61);
    Plane(a, 1, bcA, bcE, bcI, bcO, bcU);
    eGa := Xor(bcA, AndNot(bcE, bcI));
    eGe := Xor(bcE, AndNot(bcI, bcO));
    eGi := Xor(bcI, AndNot(bcO, bcU));
    eGo := Xor(bcO, AndNot(bcU, bcA));
    eGu := Xor(bcU, AndNot(bcA, bcE));
  }

  method PlaneK(a: Lanes, dA: Lane, dE: Lane, dI: Lane, dO: Lane, dU: Lane)
    returns (eKa: Lane, eKe: Lane, eKi: Lane, eKo: Lane, eKu: Lane)
    requires ThetaWords(a, dA, dE, dI, dO, dU)
    ensures RowIs(a, 2, eKa, eKe, eKi, eKo, eKu)
  {
    hide Xor, Rotate, Rol, AndNot, Column, ThetaD, Theta, Chi;
    var aBe := Xor(a[1], dE);
    var bcA := Rol(aBe, 1);
    ThetaRotated(a, 1, 1);
    var aGi := Xor(a[7], dI);
    var bcE := Rol(aGi, 6);
    ThetaRotated(a, 7, 6);
    var aKo := Xor(a[13], dO);
    var bcI := Rol(aKo, 25);
    ThetaRotated(a, 13, 25);
    var aMu := Xor(a[19], dU);
    var bcO := Rol(aMu, 8);
    ThetaRotated(a, 19, 8);
    var aSa := Xor(a[20], dA);
    var bcU := Rol(aSa, 18);
    ThetaRotated(a, 20, 18);
    Plane(a, 2, bcA, bcE, bcI, bcO, bcU);
    eKa := Xor(bcA, AndNot(bcE, bcI));
    eKe := Xor(bcE, AndNot(bcI, bcO));
    eKi := Xor(bcI, AndNot(bcO, bcU));
    eKo := Xor(bcO, AndNot(bcU, bcA));
    eKu := Xor(bcU, AndNot(bcA, bcE));
  }

  method PlaneM(a: Lanes, dA: Lane, dE: Lane, dI: Lane, dO: Lane, dU: Lane)
    returns (eMa: Lane, eMe: Lane, eMi: Lane, eMo: Lane, eMu: Lane)
    requires ThetaWords(a, dA, dE, dI, dO, dU)
    ensures RowIs(a, 3, eMa, eMe, eMi, eMo, eMu)
  {
    hide Xor, Rotate, Rol, AndNot, Column, ThetaD, Theta, Chi;
    var aBu := Xor(a[4], dU);
    var bcA := Rol(aBu, 27);
    ThetaRotated(a, 4, 27);
    var aGa := Xor(a[5], dA);
    var bcE := Rol(aGa, 36);
    ThetaRotated(a, 5, 36);
    var aKe := Xor(a[11], dE);
    var bcI := Rol(aKe, 10);
    ThetaRotated(a, 11, 10);
    var aMi := Xor(a[17], dI);
    var bcO := Rol(aMi, 15);
    ThetaRotated(a, 17, 15);
    var aSo := Xor(a[23], dO);
    var bcU := Rol(aSo, 56);
    ThetaRotated(a, 23, 56);
    Plane(a, 3, bcA, bcE, bcI, bcO, bcU);
    eMa := Xor(bcA, AndNot(bcE, bcI));
    eMe := Xor(bcE, AndNot(bcI, bcO));
    eMi := Xor(bcI, AndNot(bcO, bcU));
    eMo := Xor(bcO, AndNot(bcU, bcA));
    eMu := Xor(bcU, AndNot(bcA, bcE));
  }

  method PlaneS(a: Lanes, dA: Lane, dE: Lane, dI: Lane, dO: Lane, dU: Lane)
    returns (eSa: Lane, eSe: Lane, eSi: Lane, eSo: Lane, eSu: Lane)
    requires ThetaWords(a, dA, dE, dI, dO, dU)
    ensures RowIs(a, 4, eSa, eSe, eSi, eSo, eSu)
  {
    hide Xor, Rotate, Rol, AndNot, Column, ThetaD, Theta, Chi;
    var aBi := Xor(a[2], dI);
    var bcA := Rol(aBi, 62);
    ThetaRotated(a, 2, 62);
    var aGo := Xor(a[8], dO);
    var bcE := Rol(aGo, 55);
    ThetaRotated(a, 8, 55);
    var aKu := Xor(a[14], dU);
    var bcI := Rol(aKu, 39);
    ThetaRotated(a, 14, 39);
    var aMa := Xor(a[15], dA);
    var bcO := Rol(aMa, 41);
    ThetaRotated(a, 15, 41);
    var aSe := Xor(a[21], dE);
    var bcU := Rol(aSe, 2);
    ThetaRotated(a, 21, 2);
    Plane(a, 4, bcA, bcE, bcI, bcO, bcU);
    eSa := Xor(bcA, AndNot(bcE, bcI));
    eSe := Xor(bcE, AndNot(bcI, bcO));
    eSi := Xor(bcI, AndNot(bcO, bcU));
    eSo := Xor(bcO, AndNot(bcU, bcA));
    eSu := Xor(bcU, AndNot(bcA, bcE));
  }

  predicate RowIs(a: Lanes, y: nat, e0: Lane, e1: Lane, e2: Lane, e3: Lane, e4: Lane)
    requires y < 5
  {
    e0 == Chi(a, 0, y) && e1 == Chi(a, 1, y) && e2 == Chi(a, 2, y) && e3 == Chi(a, 3, y) && e4 == Chi(a, 4, y)
  }

  // prepareTheta
  method PrepareTheta(a: Lanes) returns (dA: Lane, dE: Lane, dI: Lane, dO: Lane, dU: Lane)
    ensures ThetaWords(a, dA, dE, dI, dO, dU)
  {
    hide Xor, Rotate, Rol;
    var bcA := Xor(Xor(Xor(Xor(a[0], a[5]), a[10]), a[15]), a[20]);
    var bcE := Xor(Xor(Xor(Xor(a[1], a[6]), a[11]), a[16]), a[21]);
    var bcI := Xor(Xor(Xor(Xor(a[2], a[7]), a[12]), a[17]), a[22]);
    var bcO := Xor(Xor(Xor(Xor(a[3], a[8]), a[13]), a[18]), a[23]);
    var bcU := Xor(Xor(Xor(Xor(a[4], a[9]), a[14]), a[19]), a[24]);
    dA := Xor(bcU, Rol(bcE, 1));
    dE := Xor(bcA, Rol(bcI, 1));
    dI := Xor(bcE, Rol(bcO, 1));
    dO := Xor(bcI, Rol(bcU, 1));
    dU := Xor(bcO, Rol(bcA, 1));
    ThetaColumn(a, 0);
    ThetaColumn(a, 1);
    ThetaColumn(a, 2);
    ThetaColumn(a, 3);
    ThetaColumn(a, 4);
  }

  function Row(e0: Lane, e1: Lane, e2: Lane, e3: Lane, e4: Lane): (r: seq<Lane>)
    ensures |r| == 5
  {
    [e0, e1, e2, e3, e4]
  }

  function Join(b: seq<Lane>, g: seq<Lane>, k: seq<Lane>, m: seq<Lane>, s: seq<Lane>): Lanes
    requires |b| == |g| == |k| == |m| == |s| == 5
  {
    b + g + k + m + s
  }

  // Row y of a state holds chi of row y
  predicate RowHolds(a: Lanes, y: nat, r: seq<Lane>)
    requires y < 5 && |r| == 5
  {
    (y == 0 || r[0] == Chi(a, 0, y)) && forall x :: 1 <= x < 5 ==> r[x] == Chi(a, x, y)
  }

  lemma RowOf(a: Lanes, y: nat, e0: Lane, e1: Lane, e2: Lane, e3: Lane, e4: Lane)
    requires y < 5 && RowIs(a, y, if y == 0 then Chi(a, 0, 0) else e0, e1, e2, e3, e4)
    ensures RowHolds(a, y, Row(e0, e1, e2, e3, e4)) && Row(e0, e1, e2, e3, e4)[0] == e0
  {
    hide Chi;
  }

  lemma JoinIs(a: Lanes, rc: Lane, b: seq<Lane>, g: seq<Lane>, k: seq<Lane>, m: seq<Lane>, s: seq<Lane>)
    requires |b| == |g| == |k| == |m| == |s| == 5 && b[0] == Xor(Chi(a, 0, 0), rc)
    requires RowHolds(a, 0, b) && RowHolds(a, 1, g) && RowHolds(a, 2, k) && RowHolds(a, 3, m) && RowHolds(a, 4, s)
    ensures Join(b, g, k, m, s) == Round(a, rc)
  {
    hide Chi, Xor, RoundLane;
    var e := Join(b, g, k, m, s);
    forall i | 0 <= i < 25 ensures e[i] == RoundLane(a, rc, i) {
      RoundLaneIs(a, rc, i);
      assert e[i] == if i < 5 then b[i] else if i < 10 then g[i - 5] else if i < 15 then k[i - 10]
                     else if i < 20 then m[i - 15] else s[i - 20];
    }
  }

  lemma RoundLaneIs(a: Lanes, rc: Lane, i: nat)
    requires i < 25
    ensures RoundLane(a, rc, i) == if i == 0 then Xor(Chi(a, 0, 0), rc) else if i < 5 then Chi(a, i, 0)
      else if i < 10 then Chi(a, i - 5, 1) else if i < 15 then Chi(a, i - 10, 2)
      else if i < 20 then Chi(a, i - 15, 3) else Chi(a, i - 20, 4)
  {
    hide Chi, Xor;
  }

  // Half of the loop body: A is read, E is written
  method HalfIteration(a: Lanes, rc: Lane) returns (e: Lanes)
    ensures e == Round(a, rc)
  {
    hide Xor, Chi, Round, RowIs, RowHolds, ThetaWords, Join, Row;
    var dA, dE, dI, dO, dU := PrepareTheta(a);
    // thetaRhoPiChiIotaPrepareTheta
    var eBa, eBe, eBi, eBo, eBu := PlaneB(a, dA, dE, dI, dO, dU, rc);
    var eGa, eGe, eGi, eGo, eGu := PlaneG(a, dA, dE, dI, dO, dU);
    var eKa, eKe, eKi, eKo, eKu := PlaneK(a, dA, dE, dI, dO, dU);
    var eMa, eMe, eMi, eMo, eMu := PlaneM(a, dA, dE, dI, dO, dU);
    var eSa, eSe, eSi, eSo, eSu := PlaneS(a, dA, dE, dI, dO, dU);
    RowOf(a, 0, eBa, eBe, eBi, eBo, eBu);
    RowOf(a, 1, eGa, eGe, eGi, eGo, eGu);
    RowOf(a, 2, eKa, eKe, eKi, eKo, eKu);
    RowOf(a, 3, eMa, eMe, eMi, eMo, eMu);
    RowOf(a, 4, eSa, eSe, eSi, eSo, eSu);
    var b, g, k := Row(eBa, eBe, eBi, eBo, eBu), Row(eGa, eGe, eGi, eGo, eGu), Row(eKa, eKe, eKi, eKo, eKu);
    var m, s := Row(eMa, eMe, eMi, eMo, eMu), Row(eSa, eSe, eSi, eSo, eSu);
    JoinIs(a, rc, b, g, k, m, s);
    e := Join(b, g, k, m, s);
  }

  // Two rounds per turn; the second half reads E and writes A
  method StatePermute(state: array<Lane>)
    requires state.Length == 25
    modifies state
    ensures state[..] == KeccakF(old(state[..]))
  {
    hide Round;
    ghost var s := state[..];
    var a := state[..];
    var round: nat := 0;
    while round < 24
      invariant round <= 24 && round % 2 == 0 && a == Rounds(s, round)
    {
      var e := HalfIteration(a, RoundConstant(round));
      assert e == Rounds(s, round + 1);
      a := HalfIteration(e, RoundConstant(round + 1));
      assert a == Rounds(s, round + 1 + 1);
      round := round + 2;
    }
    var i: nat := 0;
    while i < 25
      invariant i <= 25 && forall k :: 0 <= k < i ==> state[k] == a[k]
    {
      state[i] := a[i];
      i := i + 1;
    }
  }
}
