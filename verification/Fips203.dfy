/** The samplers as FIPS 203 states them: SampleNTT (algorithm 7) on the SHAKE128 stream of a seed and two indices, and
    SamplePolyCBD (algorithm 8) on SHAKE256 of a seed and a nonce. The matrix and the noise of the scheme are theirs. */
module Fips203 {
  import opened Division
  import opened Zetas
  import opened Codecs
  import opened RejSample
  import opened BitStream
  import opened Cbd
  import opened Sponge
  import opened KeccakPerm
  import opened Symmetric
  import opened SymmetricFips
  import opened FipsHash
  import F = Fips202

  // ----- SampleNTT -----

  // Three bytes hold two candidates; those below 3329 are kept in order
  function SampleNtt(b: seq<Byte>): seq<int> {
    if |b| < 3 then []
    else
      var b0: int, b1: int, b2: int := b[0], b[1], b[2];
      var d1, d2 := b0 + 256 * (b1 % 16), b1 / 16 + 16 * b2;
      (if d1 < 3329 then [d1] else []) + (if d2 < 3329 then [d2] else []) + SampleNtt(b[3..])
  }

  lemma GroupValues(n: nat, b0: int, b1: int, b2: int)
    requires 0 <= b0 < 256 && 0 <= b1 < 256 && 0 <= b2 < 256 && n == b0 + 256 * (b1 + 256 * b2)
    ensures n % 4096 == b0 + 256 * (b1 % 16) && n / 4096 % 4096 == b1 / 16 + 16 * b2
  {
    DivUnique(n, 4096, b1 / 16 + 16 * b2, b0 + 256 * (b1 % 16));
  }

  lemma ValueOne(b: Byte, rest: seq<Byte>)
    ensures ValueOf([b] + rest) == b + 256 * ValueOf(rest)
  {
    assert ([b] + rest)[1..] == rest;
  }

  lemma NoValue()
    ensures ValueOf([]) == 0
  {
  }

  lemma ValueOfThree(b0: Byte, b1: Byte, b2: Byte)
    ensures ValueOf([b0, b1, b2]) == b0 + 256 * (b1 + 256 * b2)
  {
    hide ValueOf;
    ValueOne(b0, [b1, b2]);
    ValueOne(b1, [b2]);
    ValueOne(b2, []);
    NoValue();
    assert [b0] + [b1, b2] == [b0, b1, b2] && [b1] + [b2] == [b1, b2] && [b2] + [] == [b2];
  }

  lemma Places()
    ensures Two(0) == 1 && Two(12) == 4096
  {
    TwoTwelve();
  }

  lemma OneGroup(b0: Byte, b1: Byte, b2: Byte)
    ensures Candidate(ValueOf([b0, b1, b2]), 0) == b0 + 256 * (b1 % 16)
    ensures Candidate(ValueOf([b0, b1, b2]), 1) == b1 / 16 + 16 * b2
  {
    hide ValueOf, Two;
    ValueOfThree(b0, b1, b2);
    GroupValues(ValueOf([b0, b1, b2]), b0, b1, b2);
    Places();
  }

  lemma OneGroupAccepted(b0: Byte, b1: Byte, b2: Byte)
    ensures AllAccepted([b0, b1, b2]) == SampleNtt([b0, b1, b2])
  {
    hide Candidate, ValueOf;
    OneGroup(b0, b1, b2);
    var n := ValueOf([b0, b1, b2]);
    assert Accepted(n, 0) == [] && Accepted(n, 1) == if Candidate(n, 0) < 3329 then [Candidate(n, 0)] else [];
    assert SampleNtt([b0, b1, b2][3..]) == [];
  }

  // The values the program accepts are SampleNTT's
  lemma {:induction false} AcceptedIsSampleNtt(b: seq<Byte>)
    requires |b| % 3 == 0
    ensures AllAccepted(b) == SampleNtt(b)
    decreases |b|
  {
    hide Candidate, ValueOf, Accepted;
    if b != [] {
      var h := [b[0], b[1], b[2]];
      assert b == h + b[3..];
      AcceptedSplit(h, b[3..]);
      OneGroupAccepted(b[0], b[1], b[2]);
      AcceptedIsSampleNtt(b[3..]);
      assert SampleNtt(h[3..]) == [];
    } else {
      assert Accepted(ValueOf(b), 0) == [];
    }
  }

  // ----- The stream of a matrix entry -----

  // The first m blocks
  function StreamBytes(seed: seq<Byte>, x: nat, y: nat, m: nat): (b: seq<Byte>) {
    XofLength(seed);
    Blocks(StreamOf(Xof(seed), x, y), m)
  }

  lemma HashGrows(msg: seq<bv8>, n: nat, k: nat)
    ensures Hash(KeccakF, 168, msg, 0x1F, n + k)[..n] == Hash(KeccakF, 168, msg, 0x1F, n)
  {
    hide KeccakF, Out, After, Absorb, Finalize;
    SqueezeAdd(KeccakF, 168, Sponge(Finalize(168, Absorb(KeccakF, 168, Sponge(Zeros(), 0), msg), 0x1F), 168), n, k);
  }

  lemma {:induction false} StreamIsHash(seed: seq<Byte>, x: Byte, y: Byte, m: nat)
    ensures StreamBytes(seed, x, y, m) == Ints(Hash(KeccakF, 168, Bits(seed + [x, y]), 0x1F, 168 * m))
    decreases m
  {
    hide KeccakF, Hash, Bits, ByteInt;
    XofLength(seed);
    if m > 0 {
      var msg := Bits(seed + [x, y]);
      var h := Hash(KeccakF, 168, msg, 0x1F, 168 * m);
      StreamIsHash(seed, x, y, m - 1);
      HashGrows(msg, 168 * (m - 1), 168);
      assert [x % 256, y % 256] == [x as int, y as int];
      assert XofBlock(seed, x, y, m - 1) == Ints(h[168 * (m - 1)..]);
      assert StreamBytes(seed, x, y, m) == StreamBytes(seed, x, y, m - 1) + XofBlock(seed, x, y, m - 1);
      assert h[..168 * (m - 1)] + h[168 * (m - 1)..] == h;
    }
  }

  // The bits of the stream are SHAKE128(seed || x || y)
  lemma {:induction false} StreamIsShake128(seed: seq<Byte>, x: Byte, y: Byte, m: nat)
    ensures BytesBits(StreamBytes(seed, x, y, m)) == F.Shake128(BytesBits(seed + [x, y]), 1344 * m)
  {
    hide KeccakF, Hash, Bits, BytesBits, BitString, F.Shake128, StreamBytes, Ints;
    StreamIsHash(seed, x, y, m);
    HashIsFips(Bits(seed + [x, y]), 168 * m);
    BitsOfBytes(seed + [x, y]);
    BitsOfBits(Hash(KeccakF, 168, Bits(seed + [x, y]), 0x1F, 168 * m));
  }

  lemma {:induction false} StreamLength(seed: seq<Byte>, x: nat, y: nat, m: nat)
    ensures |StreamBytes(seed, x, y, m)| == 168 * m
  {
    hide XofBlock;
    XofLength(seed);
  }

  lemma {:induction false} EntryAt(seed: seq<Byte>, x: nat, y: nat, m: nat)
    requires Suffices(seed, x, y, m)
    ensures |AllAccepted(StreamBytes(seed, x, y, m))| >= 256
    ensures MatrixPoly(seed, x, y) == AllAccepted(StreamBytes(seed, x, y, m))[..256]
  {
    hide XofBlock, AllAccepted, Blocks;
    XofLength(seed);
    var n: nat :| Suffices(seed, x, y, n)
      && MatrixPoly(seed, x, y) == AllAccepted(Blocks(StreamOf(Xof(seed), x, y), n))[..256];
    assert Suffices(seed, x, y, n);
    SameEntry(StreamOf(Xof(seed), x, y), n, m);
  }

  // A matrix entry is SampleNTT of that stream: its first 256 values, however many blocks are read to get them
  lemma {:induction false} MatrixIsSampleNtt(seed: seq<Byte>, x: Byte, y: Byte, m: nat)
    requires |SampleNtt(StreamBytes(seed, x, y, m))| >= 256
    ensures MatrixPoly(seed, x, y) == SampleNtt(StreamBytes(seed, x, y, m))[..256]
  {
    hide XofBlock, SampleNtt, AllAccepted, Blocks, MatrixPoly;
    StreamLength(seed, x, y, m);
    AcceptedIsSampleNtt(StreamBytes(seed, x, y, m));
    XofLength(seed);
    assert Suffices(seed, x, y, m);
    EntryAt(seed, x, y, m);
  }

  // ----- SamplePolyCBD -----

  // The number of ones among the n bits of z from bit p
  function CountOnes(z: seq<bool>, p: nat, n: nat): int
    requires p + n <= |z|
    decreases n
  {
    if n == 0 then 0 else (if z[p] then 1 else 0) + CountOnes(z, p + 1, n - 1)
  }

  lemma {:induction false} CountLast(z: seq<bool>, p: nat, n: nat)
    requires p + n < |z|
    ensures CountOnes(z, p, n + 1) == CountOnes(z, p, n) + if z[p + n] then 1 else 0
    decreases n
  {
    if n > 0 {
      CountLast(z, p + 1, n - 1);
    }
  }

  lemma {:induction false} SliceBit(b: seq<Byte>, q: nat)
    requires q < 8 * |b|
    ensures Slice(ValueOf(b), q, 1) % 2 == if BytesBits(b)[q] then 1 else 0
  {
    hide ValueOf, Two;
    SliceByte(b, q / 8);
    SliceInner(ValueOf(b), 8 * (q / 8), 8, q % 8, 1);
    TwoOne();
  }

  lemma {:induction false} OnesAreCount(b: seq<Byte>, p: nat, n: nat)
    requires p + n <= 8 * |b|
    ensures Ones(ValueOf(b), p, n) == CountOnes(BytesBits(b), p, n)
    decreases n
  {
    hide ValueOf, Slice, BytesBits;
    if n > 0 {
      OnesAreCount(b, p, n - 1);
      SliceBit(b, p + n - 1);
      CountLast(BytesBits(b), p, n - 1);
    }
  }

  lemma CoefficientBits(eta: nat, k: nat)
    requires k < 256
    ensures 2 * eta * k + 2 * eta <= 512 * eta
  {
    MulNonNeg(255 - k, eta);
    assert (255 - k) * eta == 255 * eta - k * eta;
    assert 2 * eta * k == 2 * (k * eta);
  }

  // Algorithm 8: the ones among eta bits minus the ones among the eta bits after them
  function SamplePolyCbd(z: seq<bool>, eta: nat, k: nat): int
    requires |z| == 512 * eta && k < 256
  {
    CoefficientBits(eta, k);
    CountOnes(z, 2 * eta * k, eta) - CountOnes(z, 2 * eta * k + eta, eta)
  }

  // The noise polynomials are SamplePolyCBD of SHAKE256(seed || nonce)
  lemma {:induction false} NoiseIsCbd(seed: seq<Byte>, nonce: Byte, eta: nat, k: nat)
    requires k < 256
    ensures NoisePoly(seed, nonce, eta)[k] == SamplePolyCbd(F.Shake256(BytesBits(seed + [nonce]), 512 * eta), eta, k)
  {
    hide Prf, ValueOf, BytesBits, F.Shake256, CountOnes, Ones;
    CoefficientBits(eta, k);
    var b := Prf(seed, nonce, 64 * eta);
    PrfsAreShake(seed, nonce, 64 * eta, []);
    OnesAreCount(b, 2 * eta * k, eta);
    OnesAreCount(b, 2 * eta * k + eta, eta);
  }
}
