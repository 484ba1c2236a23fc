/** FIPS 202 on strings of bits. Section 3, Keccak-p[1600, 24]: the step mappings on
    A[x, y, z], the offsets of rho along the walk of its algorithm 2, and the round constants from the linear feedback
    shift register of its algorithm 5. No constant of the program appears here. */
module Fips202 {
  import opened Division

  type State = s: seq<bool> | |s| == 1600 witness seq(1600, i => false)

  // Section 3.1.2: A[x, y, z] is bit 64 (5 y + x) + z of the string
  function At(a: State, x: nat, y: nat, z: nat): bool
    requires x < 5 && y < 5 && z < 64
  {
    a[64 * (5 * y + x) + z]
  }

  // The coordinates of bit i
  function X(i: nat): (x: nat)
    ensures x < 5
  {
    i / 64 % 5
  }

  function Y(i: nat): (y: nat)
    requires i < 1600
    ensures y < 5
  {
    i / 64 / 5
  }

  function Z(i: nat): (z: nat)
    ensures z < 64
  {
    i % 64
  }

  // ----- Theta -----

  function Parity(a: State, x: nat, z: nat): bool
    requires x < 5 && z < 64
  {
    (((At(a, x, 0, z) != At(a, x, 1, z)) != At(a, x, 2, z)) != At(a, x, 3, z)) != At(a, x, 4, z)
  }

  function ThetaAt(a: State, x: nat, y: nat, z: nat): bool
    requires x < 5 && y < 5 && z < 64
  {
    At(a, x, y, z) != (Parity(a, (x + 4) % 5, z) != Parity(a, (x + 1) % 5, (z + 63) % 64))
  }

  // ----- Rho -----

  // The t-th column visited by rho, from (1, 0)
  function Walk(t: nat): (nat, nat) {
    if t == 0 then (1, 0) else (Walk(t - 1).1, (2 * Walk(t - 1).0 + 3 * Walk(t - 1).1) % 5)
  }

  // The offset of lane (x, y): (t + 1)(t + 2) / 2 when it is visited at t >= from, 0 for the lane never visited
  function OffsetFrom(from: nat, x: nat, y: nat): nat
    decreases 24 - from
  {
    if from >= 24 then 0
    else if Walk(from) == (x, y) then (from + 1) * (from + 2) / 2
    else OffsetFrom(from + 1, x, y)
  }

  function Offset(x: nat, y: nat): nat {
    OffsetFrom(0, x, y)
  }

  function RhoAt(a: State, x: nat, y: nat, z: nat): bool
    requires x < 5 && y < 5 && z < 64
  {
    At(a, x, y, (z + 64 - Offset(x, y) % 64) % 64)
  }

  // ----- Pi and chi -----

  function PiAt(a: State, x: nat, y: nat, z: nat): bool
    requires x < 5 && y < 5 && z < 64
  {
    At(a, (x + 3 * y) % 5, x, z)
  }

  function ChiAt(a: State, x: nat, y: nat, z: nat): bool
    requires x < 5 && y < 5 && z < 64
  {
    At(a, x, y, z) != (!At(a, (x + 1) % 5, y, z) && At(a, (x + 2) % 5, y, z))
  }

  // ----- Iota -----

  // Algorithm 5: eight bits shifted right, the one shifted out added to four of them
  function Register(t: nat): (r: seq<bool>)
    ensures |r| == 8
  {
    if t == 0 then [true, false, false, false, false, false, false, false]
    else
      var r := [false] + Register(t - 1);
      [r[0] != r[8], r[1], r[2], r[3], r[4] != r[8], r[5] != r[8], r[6] != r[8], r[7]]
  }

  function Rc(t: nat): bool {
    Register(t % 255)[0]
  }

  // Bit 2^j - 1 of constant i is rc(j + 7 i), every other bit is 0
  function ConstantAt(i: nat, z: nat): bool {
    match z
    case 0 => Rc(7 * i)
    case 1 => Rc(1 + 7 * i)
    case 3 => Rc(2 + 7 * i)
    case 7 => Rc(3 + 7 * i)
    case 15 => Rc(4 + 7 * i)
    case 31 => Rc(5 + 7 * i)
    case 63 => Rc(6 + 7 * i)
    case _ => false
  }

  function IotaAt(a: State, n: nat, x: nat, y: nat, z: nat): bool
    requires x < 5 && y < 5 && z < 64
  {
    At(a, x, y, z) != (x == 0 && y == 0 && ConstantAt(n, z))
  }

  // ----- Rounds -----

  function Theta(a: State): State {
    seq(1600, i requires 0 <= i < 1600 => ThetaAt(a, X(i), Y(i), Z(i)))
  }

  function Rho(a: State): State {
    seq(1600, i requires 0 <= i < 1600 => RhoAt(a, X(i), Y(i), Z(i)))
  }

  function Pi(a: State): State {
    seq(1600, i requires 0 <= i < 1600 => PiAt(a, X(i), Y(i), Z(i)))
  }

  function Chi(a: State): State {
    seq(1600, i requires 0 <= i < 1600 => ChiAt(a, X(i), Y(i), Z(i)))
  }

  function Iota(a: State, n: nat): State {
    seq(1600, i requires 0 <= i < 1600 => IotaAt(a, n, X(i), Y(i), Z(i)))
  }

  function Round(a: State, n: nat): State {
    Iota(Chi(Pi(Rho(Theta(a)))), n)
  }

  function Rounds(a: State, n: nat): State {
    if n == 0 then a else Round(Rounds(a, n - 1), n - 1)
  }

  // Keccak-f[1600] = Keccak-p[1600, 24]
  function KeccakP(a: State): State {
    Rounds(a, 24)
  }

  // ----- Sections 4 to 6: the sponge and the functions of the standard -----

  function Zeros(n: nat): (z: seq<bool>)
    ensures |z| == n && forall i :: 0 <= i < n ==> !z[i]
  {
    seq(n, i => false)
  }

  function Gap(x: nat, m: int): (j: nat)
    requires x > 0
    ensures j < x
  {
    (0 - m - 2) % x
  }

  // Algorithm 9, pad10*1: a one, as few zeros as make x divide the length, a one
  function Pad(x: nat, m: nat): seq<bool>
    requires x > 0
  {
    [true] + Zeros(Gap(x, m)) + [true]
  }

  function XorBits(a: State, p: seq<bool>): State
    requires |p| <= 1600
  {
    seq(1600, i requires 0 <= i < 1600 => a[i] != (i < |p| && p[i]))
  }

  // Algorithm 8: each block is added to the first r bits before the permutation
  function AbsorbBits(a: State, r: nat, p: seq<bool>): State
    requires 0 < r < 1600 && |p| % r == 0
    decreases |p|
  {
    if p == [] then a
    else
      Blocks(|p|, r);
      AbsorbBits(KeccakP(XorBits(a, p[..r])), r, p[r..])
  }

  lemma Blocks(n: nat, r: nat)
    requires r > 0 && n > 0 && n % r == 0
    ensures n >= r && (n - r) % r == 0
  {
    if n >= r {
      assert n == (n / r) * r;
      assert n - r == (n / r - 1) * r;
      Multiple(n / r - 1, r);
    }
  }

  lemma Multiple(k: nat, r: nat)
    requires r > 0
    ensures (k * r) % r == 0
  {
    DivUnique(k * r, r, k, 0);
  }

  // r bits of every state, the permutation between them, truncated to d bits
  function SqueezeBits(a: State, r: nat, d: nat): (z: seq<bool>)
    requires 0 < r < 1600
    ensures |z| == d
    decreases d
  {
    if d <= r then a[..d] else a[..r] + SqueezeBits(KeccakP(a), r, d - r)
  }

  function Sponge(r: nat, n: seq<bool>, d: nat): (z: seq<bool>)
    requires 0 < r < 1600
    ensures |z| == d
  {
    Padded(r, |n|);
    SqueezeBits(AbsorbBits(Zeros(1600), r, n + Pad(r, |n|)), r, d)
  }

  lemma Padded(r: nat, n: nat)
    requires r > 0
    ensures (n + |Pad(r, n)|) % r == 0
  {
    var m: int := 0 - n - 2;
    var q, j := m / r, m % r;
    assert m == q * r + j;
    assert (0 - q) * r == 0 - q * r;
    DivUnique(n + 2 + j, r, 0 - q, 0);
  }

  // Keccak[c], with capacity c
  function Keccak(c: nat, n: seq<bool>, d: nat): (z: seq<bool>)
    requires 0 < c < 1600
    ensures |z| == d
  {
    Sponge(1600 - c, n, d)
  }

  // The capacity of a SHA-3 hash is twice its digest
  function Sha3_256(m: seq<bool>): (z: seq<bool>)
    ensures |z| == 256
  {
    Keccak(2 * 256, m + [false, true], 256)
  }

  function Sha3_512(m: seq<bool>): (z: seq<bool>)
    ensures |z| == 512
  {
    Keccak(2 * 512, m + [false, true], 512)
  }

  function Shake128(m: seq<bool>, d: nat): (z: seq<bool>)
    ensures |z| == d
  {
    Keccak(2 * 128, m + [true, true, true, true], d)
  }

  function Shake256(m: seq<bool>, d: nat): (z: seq<bool>)
    ensures |z| == d
  {
    Keccak(2 * 256, m + [true, true, true, true], d)
  }
}
