/** Byte packing of coefficients: the loops of kyber/ref/poly.c and kyber/ref/polyvec.c over byte
    buffers, and the round trips that unpack_* undoes pack_*. */
module Packing {
  import opened ModQ
  import opened Ring
  import opened Codecs

  ghost predicate Within(s: Poly, lo: int, hi: int) {
    forall i :: 0 <= i < |s| ==> lo <= s[i] < hi
  }

  lemma WithinAt(s: Poly, lo: int, hi: int, i: nat)
    requires Within(s, lo, hi) && i < |s|
    ensures lo <= s[i] < hi
  {
  }

  function Standard(s: Poly): (r: Poly)
    ensures |r| == |s|
    ensures Within(s, -Q, Q) ==> Within(r, 0, Q) && CongSeq(r, s)
  {
    seq(|s|, i requires 0 <= i < |s| => ToStandard(s[i]))
  }

  // ----- 12-bit coefficients: two in three bytes -----

  function Byte12(t0: int, t1: int, k: nat): Byte
    requires 0 <= t0 < 4096 && 0 <= t1 < 4096
  {
    if k == 0 then t0 % 256 else if k == 1 then t0 / 256 + t1 * 16 % 256 else t1 / 16
  }

  // (x | (uint16_t)y << 8) & 0xFFF and (x >> 4 | (uint16_t)y << 4) & 0xFFF
  function Low12(x: int, y: int): (r: int)
    ensures 0 <= r < 4096
  {
    (x + y * 256) % 4096
  }

  function High12(x: int, y: int): (r: int)
    ensures 0 <= r < 4096
  {
    (x / 16 + y * 16) % 4096
  }

  function Coeff12(b0: Byte, b1: Byte, b2: Byte, odd: bool): (r: int)
    ensures 0 <= r < 4096
  {
    if odd then High12(b1, b2) else Low12(b0, b1)
  }

  function ToBytes(s: Poly): (r: seq<Byte>)
    requires |s| == 256 && Within(s, 0, 4096)
    ensures |r| == 384
  {
    seq(384, p requires 0 <= p < 384 => Byte12(s[2 * (p / 3)], s[2 * (p / 3) + 1], p % 3))
  }

  function FromBytes(b: seq<Byte>): (r: Poly)
    requires |b| == 384
    ensures |r| == 256
  {
    seq(256, i requires 0 <= i < 256 =>
      Coeff12(b[3 * (i / 2)], b[3 * (i / 2) + 1], b[3 * (i / 2) + 2], i % 2 == 1))
  }

  lemma FromBytesWithin(b: seq<Byte>)
    requires |b| == 384
    ensures Within(FromBytes(b), 0, 4096)
  {
    hide Coeff12;
  }

  lemma Coeff12OfBytes(t0: int, t1: int)
    requires 0 <= t0 < 4096 && 0 <= t1 < 4096
    ensures Coeff12(Byte12(t0, t1, 0), Byte12(t0, t1, 1), Byte12(t0, t1, 2), false) == t0
    ensures Coeff12(Byte12(t0, t1, 0), Byte12(t0, t1, 1), Byte12(t0, t1, 2), true) == t1
  {
    hide Low12, High12;
    LowField16(t1);
    LowOf(t0 % 256, t0 / 256, t1 % 16);
    HighOf(t0 / 256, t1 % 16, t1 / 16);
  }

  lemma LowOf(a: int, h: int, l: int)
    requires 0 <= a < 256 && 0 <= h < 16 && 0 <= l < 16
    ensures Low12(a, h + l * 16) == a + 256 * h
  {
    assert a + (h + l * 16) * 256 == a + 256 * h + 4096 * l;
  }

  lemma HighOf(h: int, l: int, b: int)
    requires 0 <= h < 16 && 0 <= l < 16 && 0 <= b < 256
    ensures High12(h + l * 16, b) == l + 16 * b
  {
    assert (h + l * 16) / 16 == l;
  }

  lemma ToBytesAt(s: Poly, i: nat, k: nat)
    requires |s| == 256 && Within(s, 0, 4096) && i < 128 && k < 3
    ensures ToBytes(s)[3 * i + k] == Byte12(s[2 * i], s[2 * i + 1], k)
  {
    hide Byte12;
    assert (3 * i + k) / 3 == i && (3 * i + k) % 3 == k;
  }

  // poly_frombytes undoes poly_tobytes
  lemma FromBytesOfToBytes(s: Poly)
    requires |s| == 256 && Within(s, 0, 4096)
    ensures FromBytes(ToBytes(s)) == s
  {
    hide ToBytes, Coeff12, Byte12;
    forall i | 0 <= i < 256 ensures FromBytes(ToBytes(s))[i] == s[i] {
      var g := i / 2;
      ToBytesAt(s, g, 0);
      ToBytesAt(s, g, 1);
      ToBytesAt(s, g, 2);
      Coeff12OfBytes(s[2 * g], s[2 * g + 1]);
      if i % 2 == 0 { assert i == 2 * g; } else { assert i == 2 * g + 1; }
    }
  }

  method Store3(r: array<Byte>, o: nat, x: Byte, y: Byte, z: Byte)
    requires o + 3 <= r.Length
    modifies r
    ensures r[o] == x && r[o + 1] == y && r[o + 2] == z
    ensures forall p :: 0 <= p < o || o + 3 <= p < r.Length ==> r[p] == old(r[p])
  {
    r[o] := x;
    r[o + 1] := y;
    r[o + 2] := z;
  }

  lemma StandardWithin(a: Poly)
    requires Within(a, -Q, Q)
    ensures Within(Standard(a), 0, 4096)
  {
    assert Within(Standard(a), 0, Q);
  }

  lemma StandardGroup(a: Poly, i: nat)
    requires |a| == 256 && Within(a, -Q, Q) && i < 128 && Within(Standard(a), 0, 4096)
    ensures var t0, t1 := ToStandard(a[2 * i]), ToStandard(a[2 * i + 1]);
      && 0 <= t0 < 4096 && 0 <= t1 < 4096
      && ToBytes(Standard(a))[3 * i] == Byte12(t0, t1, 0)
      && ToBytes(Standard(a))[3 * i + 1] == Byte12(t0, t1, 1)
      && ToBytes(Standard(a))[3 * i + 2] == Byte12(t0, t1, 2)
  {
    hide ToBytes, Byte12, ToStandard;
    var s := Standard(a);
    assert s[2 * i] == ToStandard(a[2 * i]) && s[2 * i + 1] == ToStandard(a[2 * i + 1]);
    ToBytesAt(s, i, 0);
    ToBytesAt(s, i, 1);
    ToBytesAt(s, i, 2);
  }

  method PolyToBytes(r: array<Byte>, off: nat, a: array<int>)
    requires off + 384 <= r.Length && a.Length == 256 && Within(a[..], -Q, Q)
    modifies r
    ensures Within(Standard(a[..]), 0, 4096)
    ensures forall p :: 0 <= p < off || off + 384 <= p < r.Length ==> r[p] == old(r[p])
    ensures r[off..off + 384] == ToBytes(Standard(a[..]))
  {
    hide ToBytes, Byte12, Within, Standard, ToStandard;
    StandardWithin(a[..]);
    ghost var c := ToBytes(Standard(a[..]));
    var i := 0;
    while i < 128
      invariant 0 <= i <= 128
      invariant forall p :: 0 <= p < off || off + 384 <= p < r.Length ==> r[p] == old(r[p])
      invariant forall p :: off <= p < off + 3 * i ==> r[p] == c[p - off]
    {
      StandardGroup(a[..], i);
      var t0 := ToStandard(a[2 * i]);
      var t1 := ToStandard(a[2 * i + 1]);
      Byte12Forms(t0, t1);
      Store3(r, off + 3 * i, t0 % 256, t0 / 256 + t1 * 16 % 256, t1 / 16);
      i := i + 1;
    }
    assert r[off..off + 384] == c;
  }

  lemma Byte12Forms(t0: int, t1: int)
    requires 0 <= t0 < 4096 && 0 <= t1 < 4096
    ensures 0 <= t0 / 256 + t1 * 16 % 256 < 256 && 0 <= t1 / 16 < 256
    ensures Byte12(t0, t1, 0) == t0 % 256 && Byte12(t0, t1, 1) == t0 / 256 + t1 * 16 % 256
    ensures Byte12(t0, t1, 2) == t1 / 16
  {
  }

  method PolyFromBytes(r: array<int>, a: array<Byte>, off: nat)
    requires off + 384 <= a.Length && r.Length == 256
    modifies r
    ensures r[..] == FromBytes(a[off..off + 384])
  {
    hide FromBytes, Low12, High12;
    ghost var b := a[off..off + 384];
    ghost var c := FromBytes(b);
    var i := 0;
    while i < 128
      invariant 0 <= i <= 128
      invariant forall p :: 0 <= p < 2 * i ==> r[p] == c[p]
    {
      FromBytesAt(b, i);
      r[2 * i] := Low12(a[off + 3 * i], a[off + 3 * i + 1]);
      r[2 * i + 1] := High12(a[off + 3 * i + 1], a[off + 3 * i + 2]);
      i := i + 1;
    }
    assert r[..] == c;
  }

  lemma FromBytesAt(b: seq<Byte>, i: nat)
    requires |b| == 384 && i < 128
    ensures FromBytes(b)[2 * i] == Low12(b[3 * i], b[3 * i + 1])
    ensures FromBytes(b)[2 * i + 1] == High12(b[3 * i + 1], b[3 * i + 2])
  {
    hide Low12, High12;
    assert 2 * i / 2 == i && (2 * i + 1) / 2 == i && 2 * i % 2 == 0 && (2 * i + 1) % 2 == 1;
  }

  // ----- 10-bit values: four in five bytes -----

  function Byte10(t0: int, t1: int, t2: int, t3: int, k: nat): Byte
    requires 0 <= t0 < 1024 && 0 <= t1 < 1024 && 0 <= t2 < 1024 && 0 <= t3 < 1024
  {
    if k == 0 then t0 % 256
    else if k == 1 then t0 / 256 + t1 * 4 % 256
    else if k == 2 then t1 / 64 + t2 * 16 % 256
    else if k == 3 then t2 / 16 + t3 * 64 % 256
    else t3 / 4
  }

  // Value k of a group: the low bits of one byte joined with the next
  function Value10(x: int, y: int, k: nat): (r: int)
    ensures 0 <= r < 1024
  {
    if k == 0 then (x + y * 256) % 1024
    else if k == 1 then (x / 4 + y * 64) % 1024
    else if k == 2 then (x / 16 + y * 16) % 1024
    else (x / 64 + y * 4) % 1024
  }

  function Pack10(t: seq<int>): (r: seq<Byte>)
    requires |t| == 256 && Within(t, 0, 1024)
    ensures |r| == 320
  {
    seq(320, p requires 0 <= p < 320 =>
      Byte10(t[4 * (p / 5)], t[4 * (p / 5) + 1], t[4 * (p / 5) + 2], t[4 * (p / 5) + 3], p % 5))
  }

  function Unpack10(b: seq<Byte>): (r: seq<int>)
    requires |b| == 320
    ensures |r| == 256 && Within(r, 0, 1024)
  {
    seq(256, i requires 0 <= i < 256 =>
      Value10(b[5 * (i / 4) + i % 4], b[5 * (i / 4) + i % 4 + 1], i % 4))
  }

  lemma Value10OfBytes(t0: int, t1: int, t2: int, t3: int)
    requires 0 <= t0 < 1024 && 0 <= t1 < 1024 && 0 <= t2 < 1024 && 0 <= t3 < 1024
    ensures Value10(Byte10(t0, t1, t2, t3, 0), Byte10(t0, t1, t2, t3, 1), 0) == t0
    ensures Value10(Byte10(t0, t1, t2, t3, 1), Byte10(t0, t1, t2, t3, 2), 1) == t1
    ensures Value10(Byte10(t0, t1, t2, t3, 2), Byte10(t0, t1, t2, t3, 3), 2) == t2
    ensures Value10(Byte10(t0, t1, t2, t3, 3), Byte10(t0, t1, t2, t3, 4), 3) == t3
  {
    Join0(t0, t1);
    Join1(t0 / 256, t1, t2);
    Join2(t1 / 64, t2, t3);
    Join3(t2 / 16, t3);
  }

  lemma Join0(t: int, u: int)
    requires 0 <= t < 1024
    ensures (t % 256 + (t / 256 + u * 4 % 256) * 256) % 1024 == t
  {
    assert u * 4 % 256 == u % 64 * 4;
  }

  lemma Join1(h: int, t: int, u: int)
    requires 0 <= h < 4 && 0 <= t < 1024
    ensures ((h + t * 4 % 256) / 4 + (t / 64 + u * 16 % 256) * 64) % 1024 == t
  {
    LowField4(t);
    LowField16(u);
    var a, b, c := t % 64, t / 64, u % 16;
    assert (h + a * 4) / 4 == a;
    assert a + (b + c * 16) * 64 == a + b * 64 + 1024 * c;
  }

  lemma LowField4(t: int)
    ensures t * 4 % 256 == t % 64 * 4
  {
  }

  lemma Fields(h: int, a: int, b: int, c: int)
    requires 0 <= h < 16 && 0 <= a < 16 && 0 <= b < 64
    ensures ((h + a * 16) / 16 + (b + c * 64) * 16) % 1024 == a + b * 16
  {
    assert (h + a * 16) / 16 == a;
    assert a + (b + c * 64) * 16 == a + b * 16 + 1024 * c;
  }

  lemma LowField16(t: int)
    ensures t * 16 % 256 == t % 16 * 16
  {
  }

  lemma LowField64(t: int)
    ensures t * 64 % 256 == t % 4 * 64
  {
  }

  lemma Join2(h: int, t: int, u: int)
    requires 0 <= h < 16 && 0 <= t < 1024
    ensures ((h + t * 16 % 256) / 16 + (t / 16 + u * 64 % 256) * 16) % 1024 == t
  {
    LowField16(t);
    LowField64(u);
    Fields(h, t % 16, t / 16, u % 4);
  }

  lemma Join3(h: int, t: int)
    requires 0 <= h < 64 && 0 <= t < 1024
    ensures ((h + t * 64 % 256) / 64 + t / 4 * 4) % 1024 == t
  {
    assert t * 64 % 256 == t % 4 * 64;
  }

  lemma Pack10At(t: seq<int>, i: nat, k: nat)
    requires |t| == 256 && Within(t, 0, 1024) && i < 64 && k < 5
    ensures Pack10(t)[5 * i + k] == Byte10(t[4 * i], t[4 * i + 1], t[4 * i + 2], t[4 * i + 3], k)
  {
    hide Byte10;
    assert (5 * i + k) / 5 == i && (5 * i + k) % 5 == k;
  }

  lemma Unpack10At(b: seq<Byte>, i: nat, k: nat)
    requires |b| == 320 && i < 64 && k < 4
    ensures Unpack10(b)[4 * i + k] == Value10(b[5 * i + k], b[5 * i + k + 1], k)
  {
    hide Value10;
    assert (4 * i + k) / 4 == i && (4 * i + k) % 4 == k;
  }

  lemma Unpack10OfPack10(t: seq<int>)
    requires |t| == 256 && Within(t, 0, 1024)
    ensures Unpack10(Pack10(t)) == t
  {
    hide Pack10, Unpack10, Value10, Byte10;
    var b := Pack10(t);
    forall i | 0 <= i < 256 ensures Unpack10(b)[i] == t[i] {
      var g, k := i / 4, i % 4;
      assert i == 4 * g + k;
      Unpack10At(b, g, k);
      Pack10At(t, g, k);
      Pack10At(t, g, k + 1);
      Value10OfBytes(t[4 * g], t[4 * g + 1], t[4 * g + 2], t[4 * g + 3]);
    }
  }

  // ----- 4-bit values: two in a byte -----

  function Pack4(t: seq<int>): (r: seq<Byte>)
    requires |t| == 256 && Within(t, 0, 16)
    ensures |r| == 128
  {
    seq(128, p requires 0 <= p < 128 => t[2 * p] + t[2 * p + 1] * 16)
  }

  function Unpack4(b: seq<Byte>): (r: seq<int>)
    requires |b| == 128
    ensures |r| == 256 && Within(r, 0, 16)
  {
    seq(256, i requires 0 <= i < 256 => if i % 2 == 0 then b[i / 2] % 16 else b[i / 2] / 16)
  }

  lemma Nibbles(x: int, y: int)
    requires 0 <= x < 16
    ensures (x + y * 16) % 16 == x && (x + y * 16) / 16 == y
  {
  }

  lemma Unpack4OfPack4(t: seq<int>)
    requires |t| == 256 && Within(t, 0, 16)
    ensures Unpack4(Pack4(t)) == t
  {
    hide Within;
    forall i | 0 <= i < 256 ensures Unpack4(Pack4(t))[i] == t[i] {
      WithinAt(t, 0, 16, 2 * (i / 2));
      var g := i / 2;
      assert Pack4(t)[g] == t[2 * g] + t[2 * g + 1] * 16;
      Nibbles(t[2 * g], t[2 * g + 1]);
      if i % 2 == 0 { assert i == 2 * g; } else { assert i == 2 * g + 1; }
    }
  }

  // ----- Bits -----

  function Weight(j: nat): (r: int)
    ensures r > 0
  {
    if j == 0 then 1 else if j == 1 then 2 else if j == 2 then 4 else if j == 3 then 8
    else if j == 4 then 16 else if j == 5 then 32 else if j == 6 then 64 else 128
  }

  // (b >> j) & 1
  function BitAt(b: int, j: nat): (r: int)
    ensures 0 <= r < 2
  {
    b / Weight(j) % 2
  }

  function ByteOfBits(s: seq<int>): (r: Byte)
    requires |s| == 8 && Within(s, 0, 2)
  {
    s[0] + s[1] * 2 + s[2] * 4 + s[3] * 8 + s[4] * 16 + s[5] * 32 + s[6] * 64 + s[7] * 128
  }

  function BitsToBytes(s: seq<int>): (r: seq<Byte>)
    requires |s| == 256 && Within(s, 0, 2)
    ensures |r| == 32
  {
    seq(32, i requires 0 <= i < 32 => ByteOfBits(s[8 * i..8 * i + 8]))
  }

  function BytesToBits(b: seq<Byte>): (r: seq<int>)
    requires |b| == 32
    ensures |r| == 256 && Within(r, 0, 2)
  {
    seq(256, i requires 0 <= i < 256 => BitAt(b[i / 8], i % 8))
  }

  lemma ByteIsItsBits(b: Byte)
    ensures ByteOfBits(seq(8, j requires 0 <= j < 8 => BitAt(b, j))) == b
  {
    BinaryDigits(b);
  }

  lemma BinaryDigits(b: int)
    requires 0 <= b < 256
    ensures b == b % 2 + b / 2 % 2 * 2 + b / 4 % 2 * 4 + b / 8 % 2 * 8
               + b / 16 % 2 * 16 + b / 32 % 2 * 32 + b / 64 % 2 * 64 + b / 128 % 2 * 128
  {
    assert b / 4 == b / 2 / 2;
    assert b / 8 == b / 4 / 2;
    assert b / 16 == b / 8 / 2;
    assert b / 32 == b / 16 / 2;
    assert b / 64 == b / 32 / 2;
    assert b / 128 == b / 64 / 2;
  }

  lemma HalfOf(b: int, s: int, h: int)
    requires b == s + 2 * h && 0 <= s < 2
    ensures b / 2 == h && b % 2 == s
  {
  }

  lemma BitOfByte(s: seq<int>, j: nat)
    requires |s| == 8 && Within(s, 0, 2) && j < 8
    ensures BitAt(ByteOfBits(s), j) == s[j]
  {
    var b := ByteOfBits(s);
    var b7 := s[7];
    var b6 := s[6] + 2 * b7;
    var b5 := s[5] + 2 * b6;
    var b4 := s[4] + 2 * b5;
    var b3 := s[3] + 2 * b4;
    var b2 := s[2] + 2 * b3;
    var b1 := s[1] + 2 * b2;
    HalfOf(b, s[0], b1);
    HalfOf(b1, s[1], b2);
    HalfOf(b2, s[2], b3);
    HalfOf(b3, s[3], b4);
    HalfOf(b4, s[4], b5);
    HalfOf(b5, s[5], b6);
    HalfOf(b6, s[6], b7);
    DivChain(b);
  }

  lemma DivChain(b: int)
    ensures b / 4 == b / 2 / 2 && b / 8 == b / 2 / 2 / 2 && b / 16 == b / 2 / 2 / 2 / 2
    ensures b / 32 == b / 2 / 2 / 2 / 2 / 2 && b / 64 == b / 2 / 2 / 2 / 2 / 2 / 2
    ensures b / 128 == b / 2 / 2 / 2 / 2 / 2 / 2 / 2
  {
    assert b / 8 == b / 4 / 2;
    assert b / 16 == b / 8 / 2;
    assert b / 32 == b / 16 / 2;
    assert b / 64 == b / 32 / 2;
    assert b / 128 == b / 64 / 2;
  }

  lemma BytesOfBitsRoundTrip(s: seq<int>)
    requires |s| == 256 && Within(s, 0, 2)
    ensures BytesToBits(BitsToBytes(s)) == s
  {
    hide BitAt, ByteOfBits;
    var b := BitsToBytes(s);
    forall i | 0 <= i < 256 ensures BytesToBits(b)[i] == s[i] {
      var g, j := i / 8, i % 8;
      assert i == 8 * g + j;
      var t := s[8 * g..8 * g + 8];
      assert Within(t, 0, 2) && t[j] == s[i];
      BitOfByte(t, j);
    }
  }

  lemma BitsRoundTrip(m: seq<Byte>)
    requires |m| == 32
    ensures BitsToBytes(BytesToBits(m)) == m
  {
    hide BitAt, ByteOfBits;
    var s := BytesToBits(m);
    forall i | 0 <= i < 32 ensures BitsToBytes(s)[i] == m[i] {
      ByteIsItsBits(m[i]);
      var t := s[8 * i..8 * i + 8];
      forall j | 0 <= j < 8 ensures t[j] == BitAt(m[i], j) {
        assert (8 * i + j) / 8 == i && (8 * i + j) % 8 == j;
      }
      assert t == seq(8, j requires 0 <= j < 8 => BitAt(m[i], j));
    }
  }

  // ----- The layout of the byte strings -----

  lemma ThreeByteGroup(t0: int, t1: int)
    requires 0 <= t0 < 4096 && 0 <= t1 < 4096
    ensures (Byte12(t0, t1, 0) as int) + 256 * (Byte12(t0, t1, 1) as int) + 65536 * (Byte12(t0, t1, 2) as int)
      == t0 + 4096 * t1
  {
    LowField16(t1);
  }

  lemma FiveByteGroup(t0: int, t1: int, t2: int, t3: int)
    requires 0 <= t0 < 1024 && 0 <= t1 < 1024 && 0 <= t2 < 1024 && 0 <= t3 < 1024
    ensures (Byte10(t0, t1, t2, t3, 0) as int) + 256 * (Byte10(t0, t1, t2, t3, 1) as int)
      + 0x1_0000 * (Byte10(t0, t1, t2, t3, 2) as int) + 0x100_0000 * (Byte10(t0, t1, t2, t3, 3) as int)
      + 0x1_0000_0000 * (Byte10(t0, t1, t2, t3, 4) as int)
      == t0 + 0x400 * t1 + 0x10_0000 * t2 + 0x4000_0000 * t3
  {
    LowField4(t1);
    LowField16(t2);
    LowField64(t3);
  }

  // ByteEncode (algorithm 5 of FIPS 203): the values are the digits of the little-endian number in the bytes,
  // two of twelve bits in three bytes, four of ten bits in five, two of four bits in one
  lemma {:induction false} ByteEncode12(s: Poly, i: nat)
    requires |s| == 256 && Within(s, 0, 4096) && i < 128
    ensures var b := ToBytes(s);
      (b[3 * i] as int) + 256 * (b[3 * i + 1] as int) + 65536 * (b[3 * i + 2] as int) == s[2 * i] + 4096 * s[2 * i + 1]
  {
    hide Byte12;
    ThreeByteGroup(s[2 * i], s[2 * i + 1]);
  }

  lemma {:induction false} ByteEncode10(t: seq<int>, i: nat)
    requires |t| == 256 && Within(t, 0, 1024) && i < 64
    ensures var b := Pack10(t);
      (b[5 * i] as int) + 256 * (b[5 * i + 1] as int) + 0x1_0000 * (b[5 * i + 2] as int)
      + 0x100_0000 * (b[5 * i + 3] as int) + 0x1_0000_0000 * (b[5 * i + 4] as int)
      == t[4 * i] + 0x400 * t[4 * i + 1] + 0x10_0000 * t[4 * i + 2] + 0x4000_0000 * t[4 * i + 3]
  {
    hide Byte10;
    FiveByteGroup(t[4 * i], t[4 * i + 1], t[4 * i + 2], t[4 * i + 3]);
  }

  lemma {:induction false} ByteEncode4(t: seq<int>, i: nat)
    requires |t| == 256 && Within(t, 0, 16) && i < 128
    ensures (Pack4(t)[i] as int) == t[2 * i] + 16 * t[2 * i + 1]
  {
  }
}
