/** polyvec_compress, polyvec_decompress (d_u = 10), poly_compress, poly_decompress (d_v = 4),
    poly_frommsg and poly_tomsg on arrays. */
module Compression {
  import opened ModQ
  import opened Ring
  import opened Codecs
  import opened Packing

  function Compress10All(s: Poly): (t: seq<int>)
    ensures |t| == |s| && Within(t, 0, 1024)
  {
    seq(|s|, i requires 0 <= i < |s| => Compress10(s[i]))
  }

  function Decompress10All(t: seq<int>): (s: Poly)
    requires Within(t, 0, 1024)
    ensures |s| == |t| && Within(s, 0, Q)
  {
    seq(|t|, i requires 0 <= i < |t| => Decompress10(t[i]))
  }

  function Compress4All(s: Poly): (t: seq<int>)
    ensures |t| == |s| && Within(t, 0, 16)
  {
    seq(|s|, i requires 0 <= i < |s| => Compress4(s[i]))
  }

  function Decompress4All(t: seq<int>): (s: Poly)
    requires Within(t, 0, 16)
    ensures |s| == |t| && Within(s, 0, Q)
  {
    seq(|t|, i requires 0 <= i < |t| => Decompress4(t[i]))
  }

  function MsgPoly(m: seq<Byte>): (s: Poly)
    requires |m| == 32
    ensures |s| == 256 && Within(s, 0, 1666)
  {
    var bits := BytesToBits(m);
    seq(256, i requires 0 <= i < 256 && 0 <= bits[i] < 2 => MsgCoeff(bits[i]))
  }

  function MsgBits(s: Poly): (t: seq<int>)
    ensures |t| == |s| && Within(t, 0, 2)
  {
    seq(|s|, i requires 0 <= i < |s| => MsgBit(s[i]))
  }

  // ----- d_u = 10 -----

  lemma CompressedAt(a: Poly, i: nat)
    requires i < |a|
    ensures Compress10All(Standard(a))[i] == Compress10(ToStandard(a[i]))
  {
  }

  lemma Byte10Forms(t0: int, t1: int, t2: int, t3: int)
    requires 0 <= t0 < 1024 && 0 <= t1 < 1024 && 0 <= t2 < 1024 && 0 <= t3 < 1024
    ensures 0 <= t0 % 256 < 256 && Byte10(t0, t1, t2, t3, 0) == t0 % 256
    ensures 0 <= t0 / 256 + t1 * 4 % 256 < 256 && Byte10(t0, t1, t2, t3, 1) == t0 / 256 + t1 * 4 % 256
    ensures 0 <= t1 / 64 + t2 * 16 % 256 < 256 && Byte10(t0, t1, t2, t3, 2) == t1 / 64 + t2 * 16 % 256
    ensures 0 <= t2 / 16 + t3 * 64 % 256 < 256 && Byte10(t0, t1, t2, t3, 3) == t2 / 16 + t3 * 64 % 256
    ensures 0 <= t3 / 4 < 256 && Byte10(t0, t1, t2, t3, 4) == t3 / 4
  {
    LowField4(t1);
    LowField16(t2);
    LowField64(t3);
  }

  method Store5(r: array<Byte>, o: nat, b0: Byte, b1: Byte, b2: Byte, b3: Byte, b4: Byte)
    requires o + 5 <= r.Length
    modifies r
    ensures r[o] == b0 && r[o + 1] == b1 && r[o + 2] == b2 && r[o + 3] == b3 && r[o + 4] == b4
    ensures forall p :: 0 <= p < o || o + 5 <= p < r.Length ==> r[p] == old(r[p])
  {
    r[o] := b0;
    r[o + 1] := b1;
    r[o + 2] := b2;
    r[o + 3] := b3;
    r[o + 4] := b4;
  }

  lemma CompressedGroup(a: Poly, i: nat)
    requires |a| == 256 && i < 64
    ensures var t0, t1 := Compress10(ToStandard(a[4 * i])), Compress10(ToStandard(a[4 * i + 1]));
      var t2, t3 := Compress10(ToStandard(a[4 * i + 2])), Compress10(ToStandard(a[4 * i + 3]));
      var c := Pack10(Compress10All(Standard(a)));
      && c[5 * i] == Byte10(t0, t1, t2, t3, 0)
      && c[5 * i + 1] == Byte10(t0, t1, t2, t3, 1)
      && c[5 * i + 2] == Byte10(t0, t1, t2, t3, 2)
      && c[5 * i + 3] == Byte10(t0, t1, t2, t3, 3)
      && c[5 * i + 4] == Byte10(t0, t1, t2, t3, 4)
  {
    hide Compress10, ToStandard, Pack10, Byte10, Compress10All, Standard;
    CompressedAt(a, 4 * i);
    CompressedAt(a, 4 * i + 1);
    CompressedAt(a, 4 * i + 2);
    CompressedAt(a, 4 * i + 3);
    var t := Compress10All(Standard(a));
    Pack10At(t, i, 0);
    Pack10At(t, i, 1);
    Pack10At(t, i, 2);
    Pack10At(t, i, 3);
    Pack10At(t, i, 4);
  }

  method CompressDu(r: array<Byte>, off: nat, a: array<int>)
    requires off + 320 <= r.Length && a.Length == 256
    modifies r
    ensures forall p :: 0 <= p < off || off + 320 <= p < r.Length ==> r[p] == old(r[p])
    ensures r[off..off + 320] == Pack10(Compress10All(Standard(a[..])))
  {
    hide Compress10, ToStandard, Pack10, Byte10, Standard, Compress10All;
    ghost var c := Pack10(Compress10All(Standard(a[..])));
    var j := 0;
    while j < 64
      invariant 0 <= j <= 64
      invariant forall p :: 0 <= p < off || off + 320 <= p < r.Length ==> r[p] == old(r[p])
      invariant forall p :: off <= p < off + 5 * j ==> r[p] == c[p - off]
    {
      CompressedGroup(a[..], j);
      var t0 := Compress10(ToStandard(a[4 * j]));
      var t1 := Compress10(ToStandard(a[4 * j + 1]));
      var t2 := Compress10(ToStandard(a[4 * j + 2]));
      var t3 := Compress10(ToStandard(a[4 * j + 3]));
      Byte10Forms(t0, t1, t2, t3);
      Store5(r, off + 5 * j, t0 % 256, t0 / 256 + t1 * 4 % 256, t1 / 64 + t2 * 16 % 256,
             t2 / 16 + t3 * 64 % 256, t3 / 4);
      j := j + 1;
    }
    assert r[off..off + 320] == c;
  }

  lemma DecompressedGroup(b: seq<Byte>, i: nat, k: nat)
    requires |b| == 320 && i < 64 && k < 4
    ensures Decompress10All(Unpack10(b))[4 * i + k] == Decompress10(Value10(b[5 * i + k], b[5 * i + k + 1], k))
  {
    hide Value10, Decompress10;
    Unpack10At(b, i, k);
  }

  method DecompressDu(r: array<int>, a: array<Byte>, off: nat)
    requires off + 320 <= a.Length && r.Length == 256
    modifies r
    ensures r[..] == Decompress10All(Unpack10(a[off..off + 320]))
  {
    hide Value10, Decompress10, Unpack10, Decompress10All;
    ghost var b := a[off..off + 320];
    ghost var c := Decompress10All(Unpack10(b));
    var j := 0;
    while j < 64
      invariant 0 <= j <= 64
      invariant forall p :: 0 <= p < 4 * j ==> r[p] == c[p]
    {
      var k := 0;
      while k < 4
        invariant 0 <= k <= 4
        invariant forall p :: 0 <= p < 4 * j + k ==> r[p] == c[p]
      {
        DecompressedGroup(b, j, k);
        r[4 * j + k] := Decompress10(Value10(a[off + 5 * j + k], a[off + 5 * j + k + 1], k));
        k := k + 1;
      }
      j := j + 1;
    }
    assert r[..] == c;
  }

  // ----- d_v = 4 -----

  lemma CompressedPair(a: Poly, p: nat)
    requires |a| == 256 && p < 128
    ensures Pack4(Compress4All(Standard(a)))[p]
         == Compress4(ToStandard(a[2 * p])) + Compress4(ToStandard(a[2 * p + 1])) * 16
  {
    hide Compress4, ToStandard;
  }

  method CompressDv(r: array<Byte>, off: nat, a: array<int>)
    requires off + 128 <= r.Length && a.Length == 256
    modifies r
    ensures forall p :: 0 <= p < off || off + 128 <= p < r.Length ==> r[p] == old(r[p])
    ensures r[off..off + 128] == Pack4(Compress4All(Standard(a[..])))
  {
    hide Compress4, ToStandard, Pack4, Standard, Compress4All;
    ghost var c := Pack4(Compress4All(Standard(a[..])));
    var i := 0;
    while i < 32
      invariant 0 <= i <= 32
      invariant forall p :: 0 <= p < off || off + 128 <= p < r.Length ==> r[p] == old(r[p])
      invariant forall p :: off <= p < off + 4 * i ==> r[p] == c[p - off]
    {
      var j := 0;
      while j < 4
        invariant 0 <= j <= 4
        invariant forall p :: 0 <= p < off || off + 128 <= p < r.Length ==> r[p] == old(r[p])
        invariant forall p :: off <= p < off + 4 * i + j ==> r[p] == c[p - off]
      {
        CompressedPair(a[..], 4 * i + j);
        var t0 := Compress4(ToStandard(a[8 * i + 2 * j]));
        var t1 := Compress4(ToStandard(a[8 * i + 2 * j + 1]));
        assert a[8 * i + 2 * j] == a[..][2 * (4 * i + j)] && a[8 * i + 2 * j + 1] == a[..][2 * (4 * i + j) + 1];
        r[off + 4 * i + j] := t0 + t1 * 16;
        j := j + 1;
      }
      i := i + 1;
    }
    assert r[off..off + 128] == c;
  }

  method DecompressDv(r: array<int>, a: array<Byte>, off: nat)
    requires off + 128 <= a.Length && r.Length == 256
    modifies r
    ensures r[..] == Decompress4All(Unpack4(a[off..off + 128]))
  {
    hide Decompress4;
    ghost var b := a[off..off + 128];
    var i := 0;
    while i < 128
      invariant 0 <= i <= 128
      invariant forall p :: 0 <= p < 2 * i ==> r[p] == Decompress4All(Unpack4(b))[p]
    {
      assert b[i] == a[off + i];
      assert Unpack4(b)[2 * i] == b[i] % 16 && Unpack4(b)[2 * i + 1] == b[i] / 16;
      r[2 * i] := Decompress4(a[off + i] % 16);
      r[2 * i + 1] := Decompress4(a[off + i] / 16);
      i := i + 1;
    }
  }

  // ----- Messages -----

  lemma MsgPolyAt(m: seq<Byte>, i: nat, j: nat)
    requires |m| == 32 && i < 32 && j < 8
    ensures MsgPoly(m)[8 * i + j] == MsgCoeff(BitAt(m[i], j))
  {
    hide BitAt, MsgCoeff;
    assert (8 * i + j) / 8 == i && (8 * i + j) % 8 == j;
  }

  // cmov_int16: *r ^= -b & (*r ^ v), on the sixteen bits
  function CmovInt16(r: bv16, v: bv16, b: bv16): (s: bv16)
    ensures b == 0 ==> s == r
    ensures b == 1 ==> s == v
  {
    r ^ (-b & (r ^ v))
  }

  // The bits of (q + 1) / 2
  const HALF_Q: bv16 := 1665

  lemma {:induction false} MovedCoeff(b: int)
    requires 0 <= b < 2
    ensures I16(CmovInt16(0, HALF_Q, b as bv16) as int) == MsgCoeff(b)
  {
    if b == 1 {
      assert (1 as bv16) == 1;
    }
  }

  method FromMsg(r: array<int>, msg: array<Byte>)
    requires r.Length == 256 && msg.Length >= 32
    modifies r
    ensures r[..] == MsgPoly(msg[..32])
  {
    hide MsgPoly, BitAt, MsgCoeff, CmovInt16;
    ghost var c := MsgPoly(msg[..32]);
    var i := 0;
    while i < 32
      invariant 0 <= i <= 32
      invariant forall p :: 0 <= p < 8 * i ==> r[p] == c[p]
    {
      var j := 0;
      while j < 8
        invariant 0 <= j <= 8
        invariant forall p :: 0 <= p < 8 * i + j ==> r[p] == c[p]
      {
        MsgPolyAt(msg[..32], i, j);
        MovedCoeff(BitAt(msg[i], j));
        var t: bv16 := 0;
        t := CmovInt16(t, HALF_Q, BitAt(msg[i], j) as bv16);
        r[8 * i + j] := I16(t as int);
        j := j + 1;
      }
      i := i + 1;
    }
    assert r[..] == c;
  }

  // The byte after the first j bits have been or-ed in
  function PartialByte(s: seq<int>, j: nat): (r: int)
    requires |s| == 8 && Within(s, 0, 2) && j <= 8
    ensures 0 <= r < (if j == 8 then 256 else Weight(j))
  {
    if j == 0 then 0 else PartialByte(s, j - 1) + s[j - 1] * Weight(j - 1)
  }

  lemma FullByte(s: seq<int>)
    requires |s| == 8 && Within(s, 0, 2)
    ensures PartialByte(s, 8) == ByteOfBits(s)
  {
    assert PartialByte(s, 2) == s[0] + s[1] * 2;
    assert PartialByte(s, 4) == PartialByte(s, 2) + s[2] * 4 + s[3] * 8;
    assert PartialByte(s, 6) == PartialByte(s, 4) + s[4] * 16 + s[5] * 32;
  }

  lemma MsgByteAt(a: Poly, i: nat)
    requires |a| == 256 && i < 32
    ensures var t := MsgBits(a[8 * i..8 * i + 8]);
      BitsToBytes(MsgBits(a))[i] == PartialByte(t, 8)
  {
    hide MsgBit, ByteOfBits, PartialByte;
    var t := MsgBits(a[8 * i..8 * i + 8]);
    assert MsgBits(a)[8 * i..8 * i + 8] == t;
    FullByte(t);
  }

  lemma PartialByteNext(s: seq<int>, j: nat)
    requires |s| == 8 && Within(s, 0, 2) && j < 8
    ensures 0 <= s[j] < 2 && PartialByte(s, j + 1) == PartialByte(s, j) + s[j] * Weight(j)
    ensures 0 <= PartialByte(s, j) + s[j] * Weight(j) < 256
  {
    assert PartialByte(s, j + 1) < 256;
  }

  method ToMsg(msg: array<Byte>, a: array<int>)
    requires a.Length == 256 && msg.Length >= 32
    modifies msg
    ensures msg[..32] == BitsToBytes(MsgBits(a[..])) && msg[32..] == old(msg[32..])
  {
    hide MsgBit, PartialByte, BitsToBytes, Weight;
    ghost var c := BitsToBytes(MsgBits(a[..]));
    var i := 0;
    while i < 32
      invariant 0 <= i <= 32
      invariant forall p :: 0 <= p < i ==> msg[p] == c[p]
      invariant msg[32..] == old(msg[32..])
    {
      msg[i] := 0;
      ghost var t := MsgBits(a[8 * i..8 * i + 8]);
      PartialByteZero(t);
      var j := 0;
      while j < 8
        invariant 0 <= j <= 8
        invariant forall p :: 0 <= p < i ==> msg[p] == c[p]
        invariant msg[i] == PartialByte(t, j)
        invariant msg[32..] == old(msg[32..])
      {
        PartialByteNext(t, j);
        var bit := MsgBit(a[8 * i + j]);
        assert t[j] == bit;
        msg[i] := msg[i] + bit * Weight(j);
        j := j + 1;
      }
      MsgByteAt(a[..], i);
      assert a[..][8 * i..8 * i + 8] == a[8 * i..8 * i + 8];
      i := i + 1;
    }
    assert msg[..32] == c;
  }

  lemma PartialByteZero(s: seq<int>)
    requires |s| == 8 && Within(s, 0, 2)
    ensures PartialByte(s, 0) == 0
  {
  }
}
