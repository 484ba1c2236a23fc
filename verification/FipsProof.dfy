/** The permutation of the program is Keccak-p[1600, 24] of FIPS 202, bit by bit. */
module FipsProof {
  import opened Sponge
  import opened LaneBits
  import F = Fips202
  import K = KeccakPerm

  // The bits of a state, lane after lane, low bit first
  function BitsOf(s: Lanes): F.State {
    seq(1600, i requires 0 <= i < 1600 => Bit(s[i / 64], i % 64))
  }

  lemma BitsAt(s: Lanes, x: nat, y: nat, z: nat)
    requires x < 5 && y < 5 && z < 64
    ensures F.At(BitsOf(s), x, y, z) == Bit(s[5 * y + x], z)
  {
    hide Bit;
    assert (64 * (5 * y + x) + z) / 64 == 5 * y + x;
  }

  lemma Coordinates(i: nat)
    requires i < 1600
    ensures i == 64 * (5 * F.Y(i) + F.X(i)) + F.Z(i)
  {
  }

  lemma CoordinatesOf(x: nat, y: nat, z: nat)
    requires x < 5 && y < 5 && z < 64
    ensures var i := 64 * (5 * y + x) + z; i < 1600 && F.X(i) == x && F.Y(i) == y && F.Z(i) == z
  {
    assert (64 * (5 * y + x) + z) / 64 == 5 * y + x;
    assert (5 * y + x) / 5 == y && (5 * y + x) % 5 == x;
  }

  // ----- What each step puts at (x, y, z) -----

  lemma StepsAt(a: F.State, n: nat, x: nat, y: nat, z: nat)
    requires x < 5 && y < 5 && z < 64
    ensures F.At(F.Theta(a), x, y, z) == F.ThetaAt(a, x, y, z) && F.At(F.Rho(a), x, y, z) == F.RhoAt(a, x, y, z)
    ensures F.At(F.Pi(a), x, y, z) == F.PiAt(a, x, y, z) && F.At(F.Chi(a), x, y, z) == F.ChiAt(a, x, y, z)
    ensures F.At(F.Iota(a, n), x, y, z) == F.IotaAt(a, n, x, y, z)
  {
    hide F.X, F.Y, F.Z, F.ThetaAt, F.RhoAt, F.PiAt, F.ChiAt, F.IotaAt;
    CoordinatesOf(x, y, z);
  }

  // ----- Theta -----

  lemma ParityBit(s: Lanes, x: nat, z: nat)
    requires x < 5 && z < 64
    ensures Bit(K.Column(s, x), z) == F.Parity(BitsOf(s), x, z)
  {
    hide Xor, Bit, F.At, BitsOf;
    BitsAt(s, x, 0, z);
    BitsAt(s, x, 1, z);
    BitsAt(s, x, 2, z);
    BitsAt(s, x, 3, z);
    BitsAt(s, x, 4, z);
    var u1 := Xor(s[x], s[x + 5]);
    var u2 := Xor(u1, s[x + 10]);
    var u3 := Xor(u2, s[x + 15]);
    BitXor(s[x], s[x + 5], z);
    BitXor(u1, s[x + 10], z);
    BitXor(u2, s[x + 15], z);
    BitXor(u3, s[x + 20], z);
  }

  lemma RotatedOne(x: Lane, z: nat)
    requires z < 64
    ensures Bit(K.Rotate(x, 1), z) == Bit(x, (z + 63) % 64)
  {
    hide Count, Bit, K.Rotate;
    Counts();
    BitRotate(x, 1, 63, 1, z);
  }

  lemma ThetaLane(c: Lane, d: Lane, a: Lane, z: nat)
    requires z < 64
    ensures Bit(Xor(Xor(c, K.Rotate(d, 1)), a), z) == ((Bit(c, z) != Bit(d, (z + 63) % 64)) != Bit(a, z))
  {
    hide Xor, Bit, K.Rotate;
    RotatedOne(d, z);
    BitXor(c, K.Rotate(d, 1), z);
    BitXor(Xor(c, K.Rotate(d, 1)), a, z);
  }

  lemma ThetaForm(s: Lanes, x: nat, y: nat)
    requires x < 5 && y < 5
    ensures K.Theta(s, 5 * y + x)
      == Xor(Xor(K.Column(s, (x + 4) % 5), K.Rotate(K.Column(s, (x + 1) % 5), 1)), s[5 * y + x])
  {
    hide Xor, K.Rotate, K.Column;
    assert (5 * y + x) % 5 == x;
  }

  lemma ThetaBit(s: Lanes, x: nat, y: nat, z: nat)
    requires x < 5 && y < 5 && z < 64
    ensures Bit(K.Theta(s, 5 * y + x), z) == F.At(F.Theta(BitsOf(s)), x, y, z)
  {
    hide Xor, Bit, F.At, BitsOf, K.Rotate, F.Parity, K.Column, F.Theta, K.Theta, F.Rho, F.Pi, F.Chi, F.Iota;
    StepsAt(BitsOf(s), 0, x, y, z);
    ThetaForm(s, x, y);
    var x4, x1, w := (x + 4) % 5, (x + 1) % 5, (z + 63) % 64;
    ParityBit(s, x4, z);
    ParityBit(s, x1, w);
    ThetaLane(K.Column(s, x4), K.Column(s, x1), s[5 * y + x], z);
    BitsAt(s, x, y, z);
  }

  // ----- Rho and pi -----

  lemma Walks()
    ensures F.Walk(0) == (1, 0) && F.Walk(1) == (0, 2) && F.Walk(2) == (2, 1) && F.Walk(3) == (1, 2) &&
      F.Walk(4) == (2, 3) && F.Walk(5) == (3, 3) && F.Walk(6) == (3, 0) && F.Walk(7) == (0, 1) &&
      F.Walk(8) == (1, 3) && F.Walk(9) == (3, 1) && F.Walk(10) == (1, 4) && F.Walk(11) == (4, 4) &&
      F.Walk(12) == (4, 0) && F.Walk(13) == (0, 3) && F.Walk(14) == (3, 4) && F.Walk(15) == (4, 3) &&
      F.Walk(16) == (3, 2) && F.Walk(17) == (2, 2) && F.Walk(18) == (2, 0) && F.Walk(19) == (0, 4) &&
      F.Walk(20) == (4, 2) && F.Walk(21) == (2, 4) && F.Walk(22) == (4, 1) && F.Walk(23) == (1, 1)
  {
    Walks8();
    hide F.Walk;
    Walks16();
    Walks24();
  }

  lemma Walks8()
    ensures F.Walk(0) == (1, 0) && F.Walk(1) == (0, 2) && F.Walk(2) == (2, 1) && F.Walk(3) == (1, 2) &&
      F.Walk(4) == (2, 3) && F.Walk(5) == (3, 3) && F.Walk(6) == (3, 0) && F.Walk(7) == (0, 1)
  {
    hide F.Walk;
    WalkStart();
    WalkNext(0);
    WalkNext(1);
    WalkNext(2);
    WalkNext(3);
    WalkNext(4);
    WalkNext(5);
    WalkNext(6);
  }

  lemma Walks16()
    requires F.Walk(7) == (0, 1)
    ensures F.Walk(8) == (1, 3) && F.Walk(9) == (3, 1) && F.Walk(10) == (1, 4) && F.Walk(11) == (4, 4) &&
      F.Walk(12) == (4, 0) && F.Walk(13) == (0, 3) && F.Walk(14) == (3, 4) && F.Walk(15) == (4, 3)
  {
    hide F.Walk;
    WalkNext(7);
    WalkNext(8);
    WalkNext(9);
    WalkNext(10);
    WalkNext(11);
    WalkNext(12);
    WalkNext(13);
    WalkNext(14);
  }

  lemma Walks24()
    requires F.Walk(15) == (4, 3)
    ensures F.Walk(16) == (3, 2) && F.Walk(17) == (2, 2) && F.Walk(18) == (2, 0) && F.Walk(19) == (0, 4) &&
      F.Walk(20) == (4, 2) && F.Walk(21) == (2, 4) && F.Walk(22) == (4, 1) && F.Walk(23) == (1, 1)
  {
    hide F.Walk;
    WalkNext(15);
    WalkNext(16);
    WalkNext(17);
    WalkNext(18);
    WalkNext(19);
    WalkNext(20);
    WalkNext(21);
    WalkNext(22);
  }

  lemma WalkStart()
    ensures F.Walk(0) == (1, 0)
  {
  }

  lemma WalkNext(t: nat)
    ensures F.Walk(t + 1) == (F.Walk(t).1, (2 * F.Walk(t).0 + 3 * F.Walk(t).1) % 5)
  {
  }

  // When the walk visits a lane; 24 for the lane it never visits
  function Visit(x: nat, y: nat): nat {
    match (x, y)
    case (1, 0) => 0
    case (0, 2) => 1
    case (2, 1) => 2
    case (1, 2) => 3
    case (2, 3) => 4
    case (3, 3) => 5
    case (3, 0) => 6
    case (0, 1) => 7
    case (1, 3) => 8
    case (3, 1) => 9
    case (1, 4) => 10
    case (4, 4) => 11
    case (4, 0) => 12
    case (0, 3) => 13
    case (3, 4) => 14
    case (4, 3) => 15
    case (3, 2) => 16
    case (2, 2) => 17
    case (2, 0) => 18
    case (0, 4) => 19
    case (4, 2) => 20
    case (2, 4) => 21
    case (4, 1) => 22
    case (1, 1) => 23
    case _ => 24
  }

  lemma VisitOf(t: nat)
    requires t < 24
    ensures Visit(F.Walk(t).0, F.Walk(t).1) == t
  {
    Walks();
    hide F.Walk;
    match t
    case 0 =>
    case 1 =>
    case 2 =>
    case 3 =>
    case 4 =>
    case 5 =>
    case 6 =>
    case 7 =>
    case 8 =>
    case 9 =>
    case 10 =>
    case 11 =>
    case 12 =>
    case 13 =>
    case 14 =>
    case 15 =>
    case 16 =>
    case 17 =>
    case 18 =>
    case 19 =>
    case 20 =>
    case 21 =>
    case 22 =>
    case _ => assert t == 23;
  }

  lemma WalkOf(x: nat, y: nat)
    requires x < 5 && y < 5 && Visit(x, y) < 24
    ensures F.Walk(Visit(x, y)) == (x, y)
  {
    Walks();
    hide F.Walk;
  }

  lemma {:induction false} OffsetVisited(t: nat, x: nat, y: nat)
    requires x < 5 && y < 5 && t <= Visit(x, y)
    ensures F.OffsetFrom(t, x, y) == if Visit(x, y) < 24 then (Visit(x, y) + 1) * (Visit(x, y) + 2) / 2 else 0
    decreases 24 - t
  {
    hide F.Walk, Visit;
    VisitAtMost(x, y);
    if t < 24 {
      VisitOf(t);
      if Visit(x, y) < 24 {
        WalkOf(x, y);
      }
      if F.Walk(t) != (x, y) {
        OffsetVisited(t + 1, x, y);
      }
    }
  }

  lemma VisitAtMost(x: nat, y: nat)
    ensures Visit(x, y) <= 24
  {
  }

  // The offset of every lane modulo the lane length
  function Places(x: nat, y: nat): nat {
    match (x, y)
    case (1, 0) => 1
    case (2, 0) => 62
    case (3, 0) => 28
    case (4, 0) => 27
    case (0, 1) => 36
    case (1, 1) => 44
    case (2, 1) => 6
    case (3, 1) => 55
    case (4, 1) => 20
    case (0, 2) => 3
    case (1, 2) => 10
    case (2, 2) => 43
    case (3, 2) => 25
    case (4, 2) => 39
    case (0, 3) => 41
    case (1, 3) => 45
    case (2, 3) => 15
    case (3, 3) => 21
    case (4, 3) => 8
    case (0, 4) => 18
    case (1, 4) => 2
    case (2, 4) => 61
    case (3, 4) => 56
    case (4, 4) => 14
    case _ => 0
  }

  lemma OffsetPlaces(x: nat, y: nat)
    requires x < 5 && y < 5
    ensures F.Offset(x, y) % 64 == Places(x, y)
  {
    hide F.OffsetFrom;
    OffsetVisited(0, x, y);
  }

  lemma RotatedTheta(s: Lanes, x: nat, y: nat, z: nat, n: Lane, m: Lane)
    requires x < 5 && y < 5 && z < 64 && 0 < Places(x, y) < 64
    requires 0 < n < 64 && Count(n, Places(x, y)) && m == 64 - n && 0 < m < 64 && Count(m, 64 - Places(x, y))
    ensures Bit(K.Rotate(K.Theta(s, 5 * y + x), n), z) == F.At(F.Rho(F.Theta(BitsOf(s))), x, y, z)
  {
    hide Count, Bit, BitsOf, K.Rotate, K.Theta, F.Theta, F.Rho, F.At, F.Offset, Places;
    var k := Places(x, y);
    BitRotate(K.Theta(s, 5 * y + x), n, m, k, z);
    ThetaBit(s, x, y, (z + 64 - k) % 64);
    StepsAt(F.Theta(BitsOf(s)), 0, x, y, z);
    OffsetPlaces(x, y);
  }

  lemma PlainTheta(s: Lanes, z: nat)
    requires z < 64
    ensures Bit(K.Theta(s, 0), z) == F.At(F.Rho(F.Theta(BitsOf(s))), 0, 0, z)
  {
    hide Bit, BitsOf, K.Theta, F.Theta, F.Rho, F.At, F.Offset;
    ThetaBit(s, 0, 0, z);
    StepsAt(F.Theta(BitsOf(s)), 0, 0, 0, z);
    OffsetPlaces(0, 0);
  }

  // Row 0
  lemma Row0(s: Lanes, x: nat, z: nat)
    requires x < 5 && z < 64
    ensures Bit(K.RhoPi(s, x), z) == F.At(F.Rho(F.Theta(BitsOf(s))), (x + 0) % 5, x, z)
  {
    hide Count, Bit, BitsOf, K.Rotate, K.Theta, F.Theta, F.Rho, F.At;
    Counts();
    match x
    case 0 => PlainTheta(s, z);
    case 1 => RotatedTheta(s, 1, 1, z, 44, 20);
    case 2 => RotatedTheta(s, 2, 2, z, 43, 21);
    case 3 => RotatedTheta(s, 3, 3, z, 21, 43);
    case _ => assert x == 4; RotatedTheta(s, 4, 4, z, 14, 50);
  }

  // Row 1
  lemma Row1(s: Lanes, x: nat, z: nat)
    requires x < 5 && z < 64
    ensures Bit(K.RhoPi(s, 5 + x), z) == F.At(F.Rho(F.Theta(BitsOf(s))), (x + 3) % 5, x, z)
  {
    hide Count, Bit, BitsOf, K.Rotate, K.Theta, F.Theta, F.Rho, F.At;
    Counts();
    match x
    case 0 => RotatedTheta(s, 3, 0, z, 28, 36);
    case 1 => RotatedTheta(s, 4, 1, z, 20, 44);
    case 2 => RotatedTheta(s, 0, 2, z, 3, 61);
    case 3 => RotatedTheta(s, 1, 3, z, 45, 19);
    case _ => assert x == 4; RotatedTheta(s, 2, 4, z, 61, 3);
  }

  // Row 2
  lemma Row2(s: Lanes, x: nat, z: nat)
    requires x < 5 && z < 64
    ensures Bit(K.RhoPi(s, 10 + x), z) == F.At(F.Rho(F.Theta(BitsOf(s))), (x + 6) % 5, x, z)
  {
    hide Count, Bit, BitsOf, K.Rotate, K.Theta, F.Theta, F.Rho, F.At;
    Counts();
    match x
    case 0 => RotatedTheta(s, 1, 0, z, 1, 63);
    case 1 => RotatedTheta(s, 2, 1, z, 6, 58);
    case 2 => RotatedTheta(s, 3, 2, z, 25, 39);
    case 3 => RotatedTheta(s, 4, 3, z, 8, 56);
    case _ => assert x == 4; RotatedTheta(s, 0, 4, z, 18, 46);
  }

  // Row 3
  lemma Row3(s: Lanes, x: nat, z: nat)
    requires x < 5 && z < 64
    ensures Bit(K.RhoPi(s, 15 + x), z) == F.At(F.Rho(F.Theta(BitsOf(s))), (x + 9) % 5, x, z)
  {
    hide Count, Bit, BitsOf, K.Rotate, K.Theta, F.Theta, F.Rho, F.At;
    Counts();
    match x
    case 0 => RotatedTheta(s, 4, 0, z, 27, 37);
    case 1 => RotatedTheta(s, 0, 1, z, 36, 28);
    case 2 => RotatedTheta(s, 1, 2, z, 10, 54);
    case 3 => RotatedTheta(s, 2, 3, z, 15, 49);
    case _ => assert x == 4; RotatedTheta(s, 3, 4, z, 56, 8);
  }

  // Row 4
  lemma Row4(s: Lanes, x: nat, z: nat)
    requires x < 5 && z < 64
    ensures Bit(K.RhoPi(s, 20 + x), z) == F.At(F.Rho(F.Theta(BitsOf(s))), (x + 12) % 5, x, z)
  {
    hide Count, Bit, BitsOf, K.Rotate, K.Theta, F.Theta, F.Rho, F.At;
    Counts();
    match x
    case 0 => RotatedTheta(s, 2, 0, z, 62, 2);
    case 1 => RotatedTheta(s, 3, 1, z, 55, 9);
    case 2 => RotatedTheta(s, 4, 2, z, 39, 25);
    case 3 => RotatedTheta(s, 0, 3, z, 41, 23);
    case _ => assert x == 4; RotatedTheta(s, 1, 4, z, 2, 62);
  }

  lemma PiStep(a: F.State, x: nat, y: nat, z: nat, w: nat)
    requires x < 5 && y < 5 && z < 64 && w == (x + 3 * y) % 5
    ensures F.At(F.Pi(a), x, y, z) == F.At(a, w, x, z)
  {
    hide F.Theta, F.Rho, F.Chi, F.Iota, F.Pi, F.At;
    StepsAt(a, 0, x, y, z);
  }

  // Rotating and moving the lanes is rho and then pi
  lemma RhoPiBit(s: Lanes, x: nat, y: nat, z: nat)
    requires x < 5 && y < 5 && z < 64
    ensures Bit(K.RhoPi(s, 5 * y + x), z) == F.At(F.Pi(F.Rho(F.Theta(BitsOf(s)))), x, y, z)
  {
    hide Bit, BitsOf, K.RhoPi, F.Theta, F.Rho, F.At, F.Pi;
    var a := F.Rho(F.Theta(BitsOf(s)));
    if y == 0 {
      PiStep(a, x, 0, z, (x + 0) % 5);
      Row0(s, x, z);
    } else if y == 1 {
      PiStep(a, x, 1, z, (x + 3) % 5);
      Row1(s, x, z);
    } else if y == 2 {
      PiStep(a, x, 2, z, (x + 6) % 5);
      Row2(s, x, z);
    } else if y == 3 {
      PiStep(a, x, 3, z, (x + 9) % 5);
      Row3(s, x, z);
    } else {
      PiStep(a, x, 4, z, (x + 12) % 5);
      Row4(s, x, z);
    }
  }

  // ----- Chi -----

  lemma AndNotIs(a: Lane, b: Lane)
    ensures K.AndNot(a, b) == And(Not(a), b)
  {
  }

  lemma BitAndNot(a: Lane, b: Lane, z: nat)
    requires z < 64
    ensures Bit(K.AndNot(a, b), z) == (!Bit(a, z) && Bit(b, z))
  {
    hide Bit, And, Not, K.AndNot;
    AndNotIs(a, b);
    BitAnd(Not(a), b, z);
    BitNot(a, z);
  }

  function Mixed(s: Lanes): F.State {
    F.Pi(F.Rho(F.Theta(BitsOf(s))))
  }

  lemma ChiLane(a: Lane, b: Lane, c: Lane, z: nat)
    requires z < 64
    ensures Bit(Xor(a, K.AndNot(b, c)), z) == (Bit(a, z) != (!Bit(b, z) && Bit(c, z)))
  {
    hide Bit, K.AndNot, Xor;
    BitAndNot(b, c, z);
    BitXor(a, K.AndNot(b, c), z);
  }

  lemma ChiBit(s: Lanes, x: nat, y: nat, z: nat)
    requires x < 5 && y < 5 && z < 64
    ensures Bit(K.Chi(s, x, y), z) == F.At(F.Chi(Mixed(s)), x, y, z)
  {
    hide Bit, K.RhoPi, K.AndNot, Xor, F.At, F.Chi, Mixed, F.Theta, F.Rho, F.Pi, F.Iota;
    var x1, x2 := (x + 1) % 5, (x + 2) % 5;
    MixedBit(s, x, y, z);
    MixedBit(s, x1, y, z);
    MixedBit(s, x2, y, z);
    ChiLane(K.RhoPi(s, x + 5 * y), K.RhoPi(s, x1 + 5 * y), K.RhoPi(s, x2 + 5 * y), z);
    StepsAt(Mixed(s), 0, x, y, z);
  }

  lemma MixedBit(s: Lanes, x: nat, y: nat, z: nat)
    requires x < 5 && y < 5 && z < 64
    ensures Bit(K.RhoPi(s, x + 5 * y), z) == F.At(Mixed(s), x, y, z)
  {
    hide Bit, K.RhoPi, F.At;
    RhoPiBit(s, x, y, z);
  }

  // ----- The round constants -----

  lemma RegisterStart()
    ensures F.Register(0) == [true, false, false, false, false, false, false, false]
  {
  }

  lemma RegisterNext(t: nat, b: seq<bool>)
    requires |b| == 8 && F.Register(t) == b
    ensures F.Register(t + 1) == [b[7], b[0], b[1], b[2], b[3] != b[7], b[4] != b[7], b[5] != b[7], b[6]]
  {
    var r := [false] + F.Register(t);
    assert r[8] == b[7] && r[1..] == b;
  }

  // Bit rc of seven consecutive steps of the register, and where it goes on from
  lemma SevenSteps(t: nat, r: seq<bool>)
    requires |r| == 8 && F.Register(t) == r
    ensures F.Register(t)[0] == r[0] && F.Register(t + 1)[0] == r[7] && F.Register(t + 2)[0] == r[6]
    ensures F.Register(t + 3)[0] == (r[5] != r[7])
    ensures F.Register(t + 4)[0] == ((r[4] != r[7]) != r[6])
    ensures F.Register(t + 5)[0] == (((r[3] != r[7]) != r[6]) != (r[5] != r[7]))
    ensures F.Register(t + 6)[0] == (((r[2] != r[6]) != (r[5] != r[7])) != ((r[4] != r[7]) != r[6]))
    ensures F.Register(t + 7) == Seventh(r)
  {
    hide F.Register;
    var n1 := Shift(r);
    var n2 := Shift(n1);
    var n3 := Shift(n2);
    var n4 := Shift(n3);
    var n5 := Shift(n4);
    var n6 := Shift(n5);
    RegisterNext(t, r);
    RegisterNext(t + 1, n1);
    RegisterNext(t + 2, n2);
    RegisterNext(t + 3, n3);
    RegisterNext(t + 4, n4);
    RegisterNext(t + 5, n5);
    RegisterNext(t + 6, n6);
  }

  function Shift(b: seq<bool>): (r: seq<bool>)
    requires |b| == 8
    ensures |r| == 8
  {
    [b[7], b[0], b[1], b[2], b[3] != b[7], b[4] != b[7], b[5] != b[7], b[6]]
  }

  function Seventh(r: seq<bool>): seq<bool>
    requires |r| == 8
  {
    Shift(Shift(Shift(Shift(Shift(Shift(Shift(r)))))))
  }

  // The register after 7 i steps
  function StateAt(i: nat): (r: seq<bool>)
    requires i <= 24
    ensures |r| == 8
  {
    match i
    case 0 => [true, false, false, false, false, false, false, false]
    case 1 => [false, false, false, false, false, false, false, true]
    case 2 => [false, false, false, true, true, false, true, true]
    case 3 => [false, true, false, true, true, false, false, false]
    case 4 => [true, true, true, true, true, false, true, true]
    case 5 => [true, false, false, true, false, false, false, false]
    case 6 => [true, false, true, false, true, true, false, false]
    case 7 => [true, true, true, true, false, false, true, false]
    case 8 => [false, true, false, true, false, false, true, true]
    case 9 => [false, false, false, false, true, true, true, false]
    case 10 => [true, false, false, false, false, false, true, false]
    case 11 => [false, false, true, true, false, true, true, true]
    case 12 => [true, false, true, false, true, false, true, true]
    case 13 => [true, false, true, true, false, false, true, true]
    case 14 => [true, true, false, false, false, true, true, false]
    case 15 => [true, true, false, true, false, true, false, true]
    case 16 => [false, true, false, true, false, true, false, true]
    case 17 => [false, true, false, true, false, true, false, false]
    case 18 => [false, true, false, false, true, true, true, true]
    case 19 => [false, false, false, true, false, true, true, true]
    case 20 => [true, true, true, false, true, true, false, false]
    case 21 => [false, true, true, true, true, true, false, false]
    case 22 => [true, true, false, true, false, false, false, false]
    case 23 => [false, false, true, false, false, false, true, false]
    case _ => [false, true, true, true, false, false, false, true]
  }

  lemma Table6(i: nat)
    requires 0 <= i < 6
    ensures Seventh(StateAt(i)) == StateAt(i + 1)
  {
    match i
    case 0 =>
    case 1 =>
    case 2 =>
    case 3 =>
    case 4 =>
    case _ => assert i == 5;
  }

  lemma Table12(i: nat)
    requires 6 <= i < 12
    ensures Seventh(StateAt(i)) == StateAt(i + 1)
  {
    match i
    case 6 =>
    case 7 =>
    case 8 =>
    case 9 =>
    case 10 =>
    case _ => assert i == 11;
  }

  lemma Table18(i: nat)
    requires 12 <= i < 18
    ensures Seventh(StateAt(i)) == StateAt(i + 1)
  {
    match i
    case 12 =>
    case 13 =>
    case 14 =>
    case 15 =>
    case 16 =>
    case _ => assert i == 17;
  }

  lemma Table24(i: nat)
    requires 18 <= i < 24
    ensures Seventh(StateAt(i)) == StateAt(i + 1)
  {
    match i
    case 18 =>
    case 19 =>
    case 20 =>
    case 21 =>
    case 22 =>
    case _ => assert i == 23;
  }

  lemma {:induction false} RegisterAt(i: nat)
    requires i <= 24
    ensures F.Register(7 * i) == StateAt(i)
  {
    if i == 0 {
      RegisterStart();
    } else {
      RegisterAt(i - 1);
      RegisterStep(i - 1);
    }
  }

  lemma RegisterStep(i: nat)
    requires i < 24 && F.Register(7 * i) == StateAt(i)
    ensures F.Register(7 * (i + 1)) == StateAt(i + 1)
  {
    hide F.Register, StateAt, Seventh;
    SevenSteps(7 * i, StateAt(i));
    assert 7 * (i + 1) == 7 * i + 7;
    if i < 6 {
      Table6(i);
    } else if i < 12 {
      Table12(i);
    } else if i < 18 {
      Table18(i);
    } else {
      Table24(i);
    }
  }

  function OnlyIf(on: bool, m: Lane): Lane {
    if on then m else 0
  }

  // The lane with the seven bits of a round constant
  function Constant(b: seq<bool>): Lane
    requires |b| == 7
  {
    K.Or(K.Or(K.Or(K.Or(K.Or(K.Or(OnlyIf(b[0], 1), OnlyIf(b[1], 2)), OnlyIf(b[2], 8)), OnlyIf(b[3], 0x80)),
      OnlyIf(b[4], 0x8000)), OnlyIf(b[5], 0x8000_0000)), OnlyIf(b[6], 0x8000_0000_0000_0000))
  }

  // The seven bits the register gives from state r on
  function Seven(r: seq<bool>): (b: seq<bool>)
    requires |r| == 8
    ensures |b| == 7
  {
    [r[0], r[7], r[6], r[5] != r[7], (r[4] != r[7]) != r[6], ((r[3] != r[7]) != r[6]) != (r[5] != r[7]),
     ((r[2] != r[6]) != (r[5] != r[7])) != ((r[4] != r[7]) != r[6])]
  }

  lemma Constants4(i: nat)
    requires 0 <= i < 4
    ensures K.RoundConstant(i) == Constant(Seven(StateAt(i)))
  {
    match i
    case 0 =>
    case 1 =>
    case 2 =>
    case _ => assert i == 3;
  }

  lemma Constants8(i: nat)
    requires 4 <= i < 8
    ensures K.RoundConstant(i) == Constant(Seven(StateAt(i)))
  {
    match i
    case 4 =>
    case 5 =>
    case 6 =>
    case _ => assert i == 7;
  }

  lemma Constants12(i: nat)
    requires 8 <= i < 12
    ensures K.RoundConstant(i) == Constant(Seven(StateAt(i)))
  {
    match i
    case 8 =>
    case 9 =>
    case 10 =>
    case _ => assert i == 11;
  }

  lemma Constants16(i: nat)
    requires 12 <= i < 16
    ensures K.RoundConstant(i) == Constant(Seven(StateAt(i)))
  {
    match i
    case 12 =>
    case 13 =>
    case 14 =>
    case _ => assert i == 15;
  }

  lemma Constants20(i: nat)
    requires 16 <= i < 20
    ensures K.RoundConstant(i) == Constant(Seven(StateAt(i)))
  {
    match i
    case 16 =>
    case 17 =>
    case 18 =>
    case _ => assert i == 19;
  }

  lemma Constants24(i: nat)
    requires 20 <= i < 24
    ensures K.RoundConstant(i) == Constant(Seven(StateAt(i)))
  {
    match i
    case 20 =>
    case 21 =>
    case 22 =>
    case _ => assert i == 23;
  }

  lemma BitOnlyIf(on: bool, m: Lane, p: nat, z: nat)
    requires OneHot(m, p)
    ensures Bit(OnlyIf(on, m), z) == (on && z == p)
  {
    BitOneHot(m, p, z);
    BitZero(z);
  }

  function BitOf(b: seq<bool>, z: nat): bool
    requires |b| == 7
  {
    match z
    case 0 => b[0]
    case 1 => b[1]
    case 3 => b[2]
    case 7 => b[3]
    case 15 => b[4]
    case 31 => b[5]
    case 63 => b[6]
    case _ => false
  }

  lemma ConstantBit(b: seq<bool>, z: nat)
    requires |b| == 7
    ensures Bit(Constant(b), z) == BitOf(b, z)
  {
    hide Bit, OneHot, K.Or, OnlyIf;
    OneHots();
    var m0, m1, m2, m3 := OnlyIf(b[0], 1), OnlyIf(b[1], 2), OnlyIf(b[2], 8), OnlyIf(b[3], 0x80);
    var m4, m5, m6 := OnlyIf(b[4], 0x8000), OnlyIf(b[5], 0x8000_0000), OnlyIf(b[6], 0x8000_0000_0000_0000);
    BitOnlyIf(b[0], 1, 0, z);
    BitOnlyIf(b[1], 2, 1, z);
    BitOnlyIf(b[2], 8, 3, z);
    BitOnlyIf(b[3], 0x80, 7, z);
    BitOnlyIf(b[4], 0x8000, 15, z);
    BitOnlyIf(b[5], 0x8000_0000, 31, z);
    BitOnlyIf(b[6], 0x8000_0000_0000_0000, 63, z);
    var o1 := K.Or(m0, m1);
    var o2 := K.Or(o1, m2);
    var o3 := K.Or(o2, m3);
    var o4 := K.Or(o3, m4);
    var o5 := K.Or(o4, m5);
    BitOr(m0, m1, z);
    BitOr(o1, m2, z);
    BitOr(o2, m3, z);
    BitOr(o3, m4, z);
    BitOr(o4, m5, z);
    BitOr(o5, m6, z);
  }

  lemma ConstantsAre(i: nat)
    requires i < 24
    ensures K.RoundConstant(i) == Constant(Seven(StateAt(i)))
  {
    hide K.RoundConstant, Constant, Seven, StateAt;
    if i < 4 {
      Constants4(i);
    } else if i < 8 {
      Constants8(i);
    } else if i < 12 {
      Constants12(i);
    } else if i < 16 {
      Constants16(i);
    } else if i < 20 {
      Constants20(i);
    } else {
      Constants24(i);
    }
  }

  lemma RcBits(i: nat)
    requires i < 24
    ensures var b := Seven(StateAt(i));
      && F.Rc(7 * i) == b[0] && F.Rc(1 + 7 * i) == b[1] && F.Rc(2 + 7 * i) == b[2] && F.Rc(3 + 7 * i) == b[3]
      && F.Rc(4 + 7 * i) == b[4] && F.Rc(5 + 7 * i) == b[5] && F.Rc(6 + 7 * i) == b[6]
  {
    hide F.Register, StateAt;
    RegisterAt(i);
    SevenSteps(7 * i, StateAt(i));
    Small(7 * i);
    Small(1 + 7 * i);
    Small(2 + 7 * i);
    Small(3 + 7 * i);
    Small(4 + 7 * i);
    Small(5 + 7 * i);
    Small(6 + 7 * i);
  }

  lemma Small(t: nat)
    requires t < 255
    ensures t % 255 == t
  {
  }

  // Bit 2^j - 1 of constant i is rc(j + 7 i) and every other bit is 0, for all 24 constants
  lemma {:induction false} RoundConstantIsRc(i: nat, z: nat)
    requires i < 24 && z < 64
    ensures Bit(K.RoundConstant(i), z) == F.ConstantAt(i, z)
  {
    hide Bit, K.RoundConstant, Constant, Seven, StateAt, F.Rc;
    ConstantsAre(i);
    ConstantBit(Seven(StateAt(i)), z);
    RcBits(i);
  }

  // ----- The round and the permutation -----

  lemma {:induction false} RoundBit(s: Lanes, n: nat, x: nat, y: nat, z: nat)
    requires x < 5 && y < 5 && z < 64 && n < 24
    ensures Bit(K.Round(s, K.RoundConstant(n))[5 * y + x], z) == F.At(F.Round(BitsOf(s), n), x, y, z)
  {
    hide Bit, K.Chi, K.RoundConstant, Xor, F.At, F.Chi, Mixed, F.ConstantAt, F.Theta, F.Rho, F.Pi, F.Iota;
    ChiBit(s, x, y, z);
    StepsAt(F.Chi(Mixed(s)), n, x, y, z);
    RoundIs(s, n);
    LaneIs(s, K.RoundConstant(n), x, y);
    if x == 0 && y == 0 {
      RoundConstantIsRc(n, z);
      BitXor(K.Chi(s, 0, 0), K.RoundConstant(n), z);
    }
  }

  lemma RoundIs(s: Lanes, n: nat)
    ensures F.Round(BitsOf(s), n) == F.Iota(F.Chi(Mixed(s)), n)
  {
    hide BitsOf, F.Chi, F.Theta, F.Rho, F.Pi, F.Iota;
  }

  lemma LaneIs(s: Lanes, rc: Lane, x: nat, y: nat)
    requires x < 5 && y < 5
    ensures K.Round(s, rc)[5 * y + x] == if x == 0 && y == 0 then Xor(K.Chi(s, 0, 0), rc) else K.Chi(s, x, y)
  {
    hide K.Chi, Xor;
    assert (5 * y + x) % 5 == x && (5 * y + x) / 5 == y;
  }

  // One round of the program is theta, rho, pi, chi and iota of FIPS 202
  lemma {:induction false} RoundIsFips(s: Lanes, n: nat)
    requires n < 24
    ensures BitsOf(K.Round(s, K.RoundConstant(n))) == F.Round(BitsOf(s), n)
  {
    hide Bit, K.Round, K.RoundConstant, F.Round;
    var t := K.Round(s, K.RoundConstant(n));
    forall i | 0 <= i < 1600 ensures BitsOf(t)[i] == F.Round(BitsOf(s), n)[i] {
      Coordinates(i);
      RoundBit(s, n, F.X(i), F.Y(i), F.Z(i));
      BitsAt(t, F.X(i), F.Y(i), F.Z(i));
    }
  }

  lemma {:induction false} RoundsAreFips(s: Lanes, n: nat)
    requires n <= 24
    ensures BitsOf(K.Rounds(s, n)) == F.Rounds(BitsOf(s), n)
  {
    hide BitsOf, K.Round, K.RoundConstant, F.Round;
    if n > 0 {
      RoundsAreFips(s, n - 1);
      RoundIsFips(K.Rounds(s, n - 1), n - 1);
    }
  }

  // The permutation of the program is Keccak-p[1600, 24]
  lemma {:induction false} PermutationIsFips(s: Lanes)
    ensures BitsOf(K.KeccakF(s)) == F.KeccakP(BitsOf(s))
  {
    hide BitsOf, K.Rounds, F.Rounds;
    RoundsAreFips(s, 24);
  }
}
