/** The byte-oriented sponge of the program is the bit-oriented sponge of FIPS 202: absorbing, the suffix byte with the
    final bit, and squeezing, for every message and output length. */
module FipsHash {
  import opened Division
  import opened Sponge
  import opened LaneBits
  import opened FipsProof
  import F = Fips202
  import K = KeccakPerm

  // ----- Bytes in lanes -----

  function ByteBit(b: bv8, j: nat): bool {
    Bit(b as Lane, j)
  }

  // The bits of a byte string, every byte low bit first (appendix B.1)
  function BitString(s: seq<bv8>): (b: seq<bool>)
    ensures |b| == 8 * |s|
  {
    seq(8 * |s|, i requires 0 <= i < 8 * |s| => ByteBit(s[i / 8], i % 8))
  }

  lemma EightBits(b: bv8)
    ensures And(b as Lane, 0xFF) == b as Lane
  {
  }

  lemma ByteMask()
    ensures IsMask(0xFF, 8)
  {
    NoMask();
    hide IsMask;
    NextMask(0, 0); NextMask(1, 1); NextMask(3, 2); NextMask(7, 3);
    NextMask(0xF, 4); NextMask(0x1F, 5); NextMask(0x3F, 6); NextMask(0x7F, 7);
  }

  lemma ByteHigh(b: bv8, j: nat)
    requires j >= 8
    ensures !ByteBit(b, j)
  {
    hide And, Bit, IsMask;
    EightBits(b);
    ByteMask();
    BitAnd(b as Lane, 0xFF, j);
    BitMask(0xFF, 8, j);
  }

  // Left by a number of bytes
  lemma ShiftedForm(b: bv8, k: nat)
    requires k < 8
    ensures k == 0 ==> Shifted(b, k) == b as Lane
    ensures k == 1 ==> Shifted(b, k) == K.Left(b as Lane, 8)
    ensures k == 2 ==> Shifted(b, k) == K.Left(b as Lane, 16)
    ensures k == 3 ==> Shifted(b, k) == K.Left(b as Lane, 24)
    ensures k == 4 ==> Shifted(b, k) == K.Left(b as Lane, 32)
    ensures k == 5 ==> Shifted(b, k) == K.Left(b as Lane, 40)
    ensures k == 6 ==> Shifted(b, k) == K.Left(b as Lane, 48)
    ensures k == 7 ==> Shifted(b, k) == K.Left(b as Lane, 56)
  {
  }

  function PlacesOf(k: nat): Lane
    requires k < 8
  {
    match k
    case 0 => 0
    case 1 => 8
    case 2 => 16
    case 3 => 24
    case 4 => 32
    case 5 => 40
    case 6 => 48
    case _ => 56
  }

  lemma PlacesCount(k: nat)
    requires 0 < k < 8
    ensures 0 < PlacesOf(k) < 64 && Count(PlacesOf(k), 8 * k)
  {
    hide Count;
    Counts();
    match k
    case 1 => case 2 => case 3 => case 4 => case 5 => case 6 => case _ => assert k == 7;
  }

  lemma BitShifted(b: bv8, k: nat, z: nat)
    requires k < 8 && z < 64
    ensures Bit(Shifted(b, k), z) == (z / 8 == k && ByteBit(b, z % 8))
  {
    hide Shifted, Count, Bit, K.Left, Ups;
    ShiftedForm(b, k);
    if k > 0 {
      PlacesCount(k);
      LeftIsUps(b as Lane, PlacesOf(k), 8 * k);
      BitUps(b as Lane, 8 * k, z);
    }
    if z >= 8 * k + 8 {
      ByteHigh(b, z - 8 * k);
    }
  }

  lemma ByteOfForm(u: Lane, k: nat)
    requires k < 8
    ensures k == 0 ==> ByteOf(u, k) as Lane == And(u, 0xFF)
    ensures k == 1 ==> ByteOf(u, k) as Lane == And(RightBy(u, 8), 0xFF)
    ensures k == 2 ==> ByteOf(u, k) as Lane == And(RightBy(u, 16), 0xFF)
    ensures k == 3 ==> ByteOf(u, k) as Lane == And(RightBy(u, 24), 0xFF)
    ensures k == 4 ==> ByteOf(u, k) as Lane == And(RightBy(u, 32), 0xFF)
    ensures k == 5 ==> ByteOf(u, k) as Lane == And(RightBy(u, 40), 0xFF)
    ensures k == 6 ==> ByteOf(u, k) as Lane == And(RightBy(u, 48), 0xFF)
    ensures k == 7 ==> ByteOf(u, k) as Lane == And(RightBy(u, 56), 0xFF)
  {
  }

  lemma BitByteOf(u: Lane, k: nat, j: nat)
    requires k < 8 && j < 8
    ensures ByteBit(ByteOf(u, k), j) == Bit(u, 8 * k + j)
  {
    hide ByteOf, Count, Bit, RightBy, Downs, And, IsMask;
    ByteOfForm(u, k);
    ByteMask();
    BitMask(0xFF, 8, j);
    if k == 0 {
      BitAnd(u, 0xFF, j);
    } else {
      PlacesCount(k);
      var v := RightBy(u, PlacesOf(k));
      RightIsDowns(u, PlacesOf(k), 8 * k);
      BitDowns(u, 8 * k, j);
      BitAnd(v, 0xFF, j);
    }
  }

  // ----- Bytes added to a state -----

  lemma XorByteBit(s: Lanes, i: nat, b: bv8, q: nat)
    requires i < 200 && q < 1600
    ensures BitsOf(XorByte(s, i, b))[q] == (BitsOf(s)[q] != (q / 8 == i && ByteBit(b, q % 8)))
  {
    hide Shifted, Bit, Xor, ByteBit;
    ByteOfBit(q);
    if q / 64 == i / 8 {
      BitXor(s[i / 8], Shifted(b, i % 8), q % 64);
      BitShifted(b, i % 8, q % 64);
    }
  }

  lemma ByteOfBit(q: nat)
    ensures q / 64 == q / 8 / 8 && q % 64 / 8 == q / 8 % 8 && q % 64 % 8 == q % 8
  {
  }

  // Bit q of the bytes b put at byte i
  predicate Placed(i: nat, b: seq<bv8>, q: nat) {
    i <= q / 8 < i + |b| && ByteBit(b[q / 8 - i], q % 8)
  }

  lemma {:induction false} XorBytesBit(s: Lanes, i: nat, b: seq<bv8>, q: nat)
    requires i + |b| <= 200 && q < 1600
    ensures BitsOf(XorBytes(s, i, b))[q] == (BitsOf(s)[q] != Placed(i, b, q))
    decreases |b|
  {
    hide XorByte, BitsOf, ByteBit;
    if b != [] {
      XorBytesBit(XorByte(s, i, b[0]), i + 1, b[1..], q);
      XorByteBit(s, i, b[0], q);
    }
  }

  // Adding a block of bytes is adding its bits
  lemma {:induction false} XorBlockBits(s: Lanes, b: seq<bv8>)
    requires |b| <= 200
    ensures BitsOf(XorBytes(s, 0, b)) == F.XorBits(BitsOf(s), BitString(b))
  {
    hide XorBytes, BitsOf, ByteBit;
    forall q | 0 <= q < 1600
      ensures BitsOf(XorBytes(s, 0, b))[q] == F.XorBits(BitsOf(s), BitString(b))[q]
    {
      XorBytesBit(s, 0, b, q);
    }
  }

  // ----- The suffix and the padding -----

  // The bits the program's suffix byte stands for, before the first bit of the padding
  function SuffixBits(p: bv8): (b: seq<bool>)
  {
    if p == 0x06 then [false, true] else [true, true, true, true]
  }

  predicate SuffixOk(p: bv8) {
    p == 0x06 || p == 0x1F
  }

  lemma SuffixByteBit(p: bv8, j: nat)
    requires SuffixOk(p) && j < 8
    ensures var e := |SuffixBits(p)|;
      ByteBit(p, j) == if j < e then SuffixBits(p)[j] else j == e
  {
    SixBits();
    ThirtyOneBits();
  }

  lemma SixBits()
    ensures forall j :: 0 <= j < 8 ==> ByteBit(0x06, j) == (j == 1 || j == 2)
  {
    var x: bv8 := 6;
    assert x as Lane == 6;
    UnfoldBits(6, 3, 1, 0);
    UnfoldBits(0, 0, 0, 0);
    forall j | 0 <= j < 8 ensures ByteBit(0x06, j) == (j == 1 || j == 2) {
      LowThree(6, 3, 1, 0, j);
    }
  }

  lemma UnfoldBits(a: Lane, b: Lane, c: Lane, d: Lane)
    requires Down(a) == b && Down(b) == c && Down(c) == d
    ensures forall j :: j >= 3 ==> Bit(a, j) == Bit(d, j - 3)
  {
    hide Down, Low;
    forall j | j >= 3 ensures Bit(a, j) == Bit(d, j - 3) {
      assert Bit(a, j) == Bit(b, j - 1) == Bit(c, j - 2) == Bit(d, j - 3);
    }
  }

  lemma LowThree(a: Lane, b: Lane, c: Lane, d: Lane, j: nat)
    requires a == 6 && b == 3 && c == 1 && d == 0
    ensures Bit(a, j) == (j == 1 || j == 2)
  {
    assert Down(a) == b && Down(b) == c && Down(c) == d;
    UnfoldBits(a, b, c, d);
    if j >= 3 {
      BitZero(j - 3);
    }
  }

  lemma ThirtyOneBits()
    ensures forall j :: 0 <= j < 8 ==> ByteBit(0x1F, j) == (j < 5)
  {
    NoMask();
    hide IsMask, Bit;
    NextMask(0, 0); NextMask(1, 1); NextMask(3, 2); NextMask(7, 3); NextMask(0xF, 4);
    var x: bv8 := 0x1F;
    assert x as Lane == 0x1F;
    forall j | 0 <= j < 8 ensures ByteBit(0x1F, j) == (j < 5) {
      BitMask(0x1F, 5, j);
    }
  }

  lemma TopByte()
    ensures Shifted(0x80, 7) == 0x8000_0000_0000_0000
  {
  }

  lemma TopByteBit(j: nat)
    requires j < 8
    ensures ByteBit(0x80, j) == (j == 7)
  {
    OneHots();
    hide OneHot, Bit;
    var x: bv8 := 0x80;
    assert x as Lane == 0x80;
    BitOneHot(0x80, 7, j);
  }

  lemma TopOfRate(r: nat)
    requires RateOk(r)
    ensures (r - 1) / 8 == r / 8 - 1 && (r - 1) % 8 == 7
  {
  }

  // The final bit is one more byte added to the state
  lemma FinalizeForm(r: nat, z: Sponge, p: bv8)
    requires RateOk(r) && z.pos < r
    ensures Finalize(r, z, p) == XorByte(XorByte(z.s, z.pos, p), r - 1, 0x80)
  {
    hide Shifted, Xor;
    TopByte();
    TopOfRate(r);
  }

  // The end of a message and its padding: one block
  function LastBits(r: nat, tail: seq<bv8>, p: bv8): seq<bool>
    requires r > 0
  {
    var b := BitString(tail) + SuffixBits(p);
    b + F.Pad(8 * r, |b|)
  }

  lemma LastLength(r: nat, tail: seq<bv8>, p: bv8)
    requires |tail| < r
    ensures F.Gap(8 * r, 8 * |tail| + |SuffixBits(p)|) == 8 * r - 8 * |tail| - |SuffixBits(p)| - 2
    ensures |LastBits(r, tail, p)| == 8 * r
  {
    var x, m := 8 * r, 8 * |tail| + |SuffixBits(p)|;
    DivUnique(0 - m - 2, x, 0 - 1, x - m - 2);
  }

  lemma LastAt(r: nat, tail: seq<bv8>, p: bv8, q: nat)
    requires |tail| < r && SuffixOk(p) && q < 8 * r
    ensures |LastBits(r, tail, p)| == 8 * r
    ensures LastBits(r, tail, p)[q]
      == ((Placed(0, tail, q) != (q / 8 == |tail| && ByteBit(p, q % 8))) != (q == 8 * r - 1))
  {
    hide ByteBit, SuffixBits;
    LastLength(r, tail, p);
    SuffixLength(p);
    var t, e := 8 * |tail|, |SuffixBits(p)|;
    if q / 8 == |tail| {
      SuffixByteBit(p, q % 8);
    }
    PadAt(8 * r, t + e, r);
    var l := LastBits(r, tail, p);
    var b := BitString(tail) + SuffixBits(p);
    if q < t + e {
      assert l[q] == b[q];
    } else {
      assert l[q] == F.Pad(8 * r, t + e)[q - (t + e)];
    }
  }

  lemma SuffixLength(p: bv8)
    ensures |SuffixBits(p)| == 2 || |SuffixBits(p)| == 4
  {
  }

  lemma PadAt(x: nat, m: nat, r: nat)
    requires x > 0
    ensures var l := F.Pad(x, m);
      |l| == F.Gap(x, m) + 2 && forall i :: 0 <= i < |l| ==> l[i] == (i == 0 || i == |l| - 1)
  {
    hide F.Gap;
  }

  // Finalising after the tail of a message adds its last block
  lemma {:induction false} FinalizeBits(r: nat, s: Lanes, tail: seq<bv8>, p: bv8)
    requires RateOk(r) && |tail| < r && SuffixOk(p)
    ensures |LastBits(r, tail, p)| == 8 * r
    ensures BitsOf(Finalize(r, Sponge(XorBytes(s, 0, tail), |tail|), p)) == F.XorBits(BitsOf(s), LastBits(r, tail, p))
  {
    hide XorBytes, BitsOf, ByteBit, XorByte, Finalize, LastBits, Placed;
    LastLength(r, tail, p);
    var a := XorBytes(s, 0, tail);
    var b := XorByte(a, |tail|, p);
    FinalizeForm(r, Sponge(a, |tail|), p);
    forall q | 0 <= q < 1600
      ensures BitsOf(XorByte(b, r - 1, 0x80))[q] == F.XorBits(BitsOf(s), LastBits(r, tail, p))[q]
    {
      XorBytesBit(s, 0, tail, q);
      XorByteBit(a, |tail|, p, q);
      XorByteBit(b, r - 1, 0x80, q);
      TopByteBit(q % 8);
      if q < 8 * r {
        LastAt(r, tail, p, q);
      } else {
        Beyond(r, tail, q);
      }
    }
  }

  lemma Beyond(r: nat, tail: seq<bv8>, q: nat)
    requires |tail| < r && q >= 8 * r
    ensures !Placed(0, tail, q)
  {
  }

  // ----- The whole message -----

  lemma BitStringSplit(a: seq<bv8>, b: seq<bv8>)
    ensures BitString(a + b) == BitString(a) + BitString(b)
  {
    hide ByteBit;
    forall q | 0 <= q < 8 * |a + b| ensures BitString(a + b)[q] == (BitString(a) + BitString(b))[q] {
      if q >= 8 * |a| {
        assert (q - 8 * |a|) / 8 == q / 8 - |a| && (q - 8 * |a|) % 8 == q % 8;
      }
    }
  }

  // Padding looks only at the length modulo the rate
  lemma PadShift(x: nat, m: nat)
    requires x > 0
    ensures F.Pad(x, m + x) == F.Pad(x, m)
  {
    var n: int := 0 - m - 2;
    assert n == n / x * x + n % x;
    assert (n / x - 1) * x == n / x * x - x;
    DivUnique(n - x, x, n / x - 1, n % x);
  }

  // A message of at least one block is its first block before the rest
  lemma LastBitsSplit(r: nat, a: seq<bv8>, b: seq<bv8>, p: bv8)
    requires r > 0 && |a| == r
    ensures LastBits(r, a + b, p) == BitString(a) + LastBits(r, b, p)
  {
    hide BitString, SuffixBits, F.Pad;
    BitStringSplit(a, b);
    PadShift(8 * r, |BitString(b) + SuffixBits(p)|);
  }

  lemma LastBitsFill(r: nat, msg: seq<bv8>, p: bv8)
    requires r > 0
    ensures |LastBits(r, msg, p)| % (8 * r) == 0
  {
    F.Padded(8 * r, |BitString(msg) + SuffixBits(p)|);
  }

  // Absorbing the bytes and finalising is absorbing the padded bits
  lemma {:induction false} AbsorbedBits(r: nat, s: Lanes, msg: seq<bv8>, p: bv8)
    requires RateOk(r) && r < 200 && SuffixOk(p)
    ensures |LastBits(r, msg, p)| % (8 * r) == 0
    ensures BitsOf(K.KeccakF(Finalize(r, Absorb(K.KeccakF, r, Sponge(s, 0), msg), p)))
      == F.AbsorbBits(BitsOf(s), 8 * r, LastBits(r, msg, p))
    decreases |msg|
  {
    hide K.KeccakF, Finalize, XorBytes, BitsOf, LastBits, F.XorBits, F.KeccakP, Absorb, BitString;
    LastBitsFill(r, msg, p);
    if |msg| < r {
      AbsorbIsXor(K.KeccakF, r, s, 0, msg);
      FinalizeBits(r, s, msg, p);
      PermutationIsFips(Finalize(r, Sponge(XorBytes(s, 0, msg), |msg|), p));
      OneBlock(BitsOf(s), 8 * r, LastBits(r, msg, p));
    } else {
      var a, b := msg[..r], msg[r..];
      assert a + b == msg;
      AbsorbAppend(K.KeccakF, r, Sponge(s, 0), a, b);
      AbsorbIsXor(K.KeccakF, r, s, 0, a);
      var x := XorBytes(s, 0, a);
      XorBlockBits(s, a);
      PermutationIsFips(x);
      LastBitsSplit(r, a, b, p);
      AbsorbedBits(r, K.KeccakF(x), b, p);
      NextBlock(BitsOf(s), 8 * r, BitString(a), LastBits(r, b, p));
    }
  }

  lemma OneBlock(a: F.State, r: nat, p: seq<bool>)
    requires 0 < r < 1600 && |p| == r
    ensures |p| % r == 0 && F.AbsorbBits(a, r, p) == F.KeccakP(F.XorBits(a, p))
  {
    hide F.KeccakP, F.XorBits;
    DivUnique(r, r, 1, 0);
    assert p[..r] == p && p[r..] == [];
  }

  lemma NextBlock(a: F.State, r: nat, p: seq<bool>, more: seq<bool>)
    requires 0 < r < 1600 && |p| == r && |more| % r == 0
    ensures |p + more| % r == 0
    ensures F.AbsorbBits(a, r, p + more) == F.AbsorbBits(F.KeccakP(F.XorBits(a, p)), r, more)
  {
    hide F.KeccakP, F.XorBits;
    DivAdd(|more|, 1, r);
    assert (p + more)[..r] == p && (p + more)[r..] == more;
  }

  // ----- Squeezing -----

  lemma StateByteBit(s: Lanes, q: nat)
    requires q < 1600
    ensures ByteBit(ByteAt(s, q / 8), q % 8) == BitsOf(s)[q]
  {
    hide ByteOf, ByteBit, Bit;
    ByteOfBit(q);
    BitByteOf(s[q / 64], q / 8 % 8, q % 8);
    assert 8 * (q / 8 % 8) + q % 8 == q % 64;
  }

  lemma StateBytes(s: Lanes, o: seq<bv8>)
    requires |o| <= 200 && forall k :: 0 <= k < |o| ==> o[k] == ByteAt(s, k)
    ensures BitString(o) == BitsOf(s)[..8 * |o|]
  {
    hide ByteAt, ByteBit, BitsOf;
    forall q | 0 <= q < 8 * |o| ensures BitString(o)[q] == BitsOf(s)[q] {
      StateByteBit(s, q);
    }
  }

  lemma NoBytes(r: nat, s: Lanes)
    requires RateOk(r)
    ensures Out(K.KeccakF, r, Sponge(s, r), 0) == []
  {
  }

  // The bytes put out are the bits squeezed out
  lemma {:induction false} SqueezedBits(r: nat, s: Lanes, n: nat)
    requires RateOk(r) && r < 200
    ensures BitString(Out(K.KeccakF, r, Sponge(s, r), n)) == F.SqueezeBits(BitsOf(K.KeccakF(s)), 8 * r, 8 * n)
    decreases n
  {
    hide K.KeccakF, BitsOf, F.KeccakP, Out, After, ByteAt, BitString;
    var z := Sponge(s, r);
    var t := K.KeccakF(s);
    if n == 0 {
      NoBytes(r, s);
      StateBytes(t, []);
    } else if n <= r {
      BlockOut(K.KeccakF, r, z, n);
      StateBytes(t, Out(K.KeccakF, r, z, n));
    } else {
      SqueezeAdd(K.KeccakF, r, z, r, n - r);
      BlockOut(K.KeccakF, r, z, r);
      StateBytes(t, Out(K.KeccakF, r, z, r));
      PermutationIsFips(t);
      SqueezedBits(r, t, n - r);
      BitStringSplit(Out(K.KeccakF, r, z, r), Out(K.KeccakF, r, Sponge(t, r), n - r));
    }
  }

  // ----- The functions of the standard -----

  lemma ZeroBits()
    ensures BitsOf(Zeros()) == F.Zeros(1600)
  {
    hide Bit;
    forall q | 0 <= q < 1600 ensures !BitsOf(Zeros())[q] {
      BitZero(q % 64);
    }
  }

  // The program's hash is Sponge of FIPS 202 on the bits of the message and the domain suffix
  lemma {:induction false} HashIsSponge(r: nat, msg: seq<bv8>, p: bv8, n: nat)
    requires RateOk(r) && r < 200 && SuffixOk(p)
    ensures BitString(Hash(K.KeccakF, r, msg, p, n)) == F.Sponge(8 * r, BitString(msg) + SuffixBits(p), 8 * n)
  {
    hide K.KeccakF, BitsOf, F.KeccakP, Out, BitString, Finalize, Absorb, F.AbsorbBits, F.SqueezeBits, Zeros,
      SuffixBits;
    hide F.Pad, F.Zeros;
    ZeroBits();
    AbsorbedBits(r, Zeros(), msg, p);
    SqueezedBits(r, Finalize(r, Absorb(K.KeccakF, r, Sponge(Zeros(), 0), msg), p), n);
  }

  lemma Suffixes()
    ensures SuffixBits(0x06) == [false, true] && SuffixBits(0x1F) == [true, true, true, true]
  {
  }

  // Rate 136 and suffix 06 is SHA3-256, rate 72 SHA3-512; suffix 1F is SHAKE256 with rate 136, SHAKE128 with rate 168
  lemma {:induction false} HashIsFips(msg: seq<bv8>, n: nat)
    ensures BitString(Hash(K.KeccakF, 136, msg, 0x06, 32)) == F.Sha3_256(BitString(msg))
    ensures BitString(Hash(K.KeccakF, 72, msg, 0x06, 64)) == F.Sha3_512(BitString(msg))
    ensures BitString(Hash(K.KeccakF, 168, msg, 0x1F, n)) == F.Shake128(BitString(msg), 8 * n)
    ensures BitString(Hash(K.KeccakF, 136, msg, 0x1F, n)) == F.Shake256(BitString(msg), 8 * n)
  {
    hide K.KeccakF, BitString, Hash, SuffixBits, F.Sponge;
    Suffixes();
    HashIsSponge(136, msg, 0x06, 32);
    HashIsSponge(72, msg, 0x06, 64);
    HashIsSponge(168, msg, 0x1F, n);
    HashIsSponge(136, msg, 0x1F, n);
  }
}
