/** The hash functions of kyber/ref/symmetric-shake.c and kyber/ref/symmetric.h, and the samplers of
    poly.c and indcpa.c on top of them: the hashing parameters of K-PKE and of the KEM are
    instantiated with SHA-3, SHAKE, rejection sampling and the centred binomial distribution. */
module Symmetric {
  import opened ModQ
  import opened Ring
  import opened NttImpl
  import opened Codecs
  import opened Packing
  import opened Compression
  import opened RejSample
  import opened Cbd
  import opened Sponge
  import opened KeccakPerm
  import opened Kpke
  import opened KpkeCorrect
  import opened Indcpa
  import opened Kem

  // ----- Bytes as bit vectors and as numbers -----

  function ByteInt(b: bv8): Byte {
    b as int
  }

  function ByteBits(b: Byte): bv8 {
    b as bv8
  }

  function Ints(b: seq<bv8>): (s: seq<Byte>)
    ensures |s| == |b|
  {
    seq(|b|, k requires 0 <= k < |b| => ByteInt(b[k]))
  }

  function Bits(s: seq<Byte>): (b: seq<bv8>)
    ensures |b| == |s|
  {
    seq(|s|, k requires 0 <= k < |s| => ByteBits(s[k]))
  }

  lemma BitsInt(b: bv8)
    ensures ByteBits(ByteInt(b)) == b
  {
  }

  lemma BitsOfInts(b: seq<bv8>)
    ensures Bits(Ints(b)) == b
  {
    hide ByteBits, ByteInt;
    forall k | 0 <= k < |b|
      ensures Bits(Ints(b))[k] == b[k]
    {
      BitsInt(b[k]);
    }
  }

  lemma BitsAppend(a: seq<Byte>, b: seq<Byte>)
    ensures Bits(a + b) == Bits(a) + Bits(b)
  {
    hide ByteBits;
  }

  // ----- symmetric.h -----

  function HashH(s: seq<Byte>): (h: seq<Byte>)
    ensures |h| == 32
  {
    Ints(Hash(KeccakF, 136, Bits(s), 0x06, 32))
  }

  function HashG(s: seq<Byte>): (h: seq<Byte>)
    ensures |h| == 64
  {
    Ints(Hash(KeccakF, 72, Bits(s), 0x06, 64))
  }

  function Prf(key: seq<Byte>, nonce: Byte, n: nat): (b: seq<Byte>)
    ensures |b| == n
  {
    Ints(Hash(KeccakF, 136, Bits(key + [nonce]), 0x1F, n))
  }

  function Rkprf(key: seq<Byte>, input: seq<Byte>): (b: seq<Byte>)
    ensures |b| == 32
  {
    Ints(Hash(KeccakF, 136, Bits(key + input), 0x1F, 32))
  }

  // sha3_256, the hash_h of symmetric.h
  method Sha3_256(h: array<Byte>, input: seq<Byte>)
    requires h.Length == 32
    modifies h
    ensures h[..] == HashH(input)
  {
    hide Hash, KeccakF, Bits, ByteInt;
    var out := new bv8[32](i => 0);
    Sha3(KeccakF, out, 136, Bits(input));
    StoreInts(h, out[..]);
  }

  // sha3_512, the hash_g of symmetric.h
  method Sha3_512(h: array<Byte>, input: seq<Byte>)
    requires h.Length == 64
    modifies h
    ensures h[..] == HashG(input)
  {
    hide Hash, KeccakF, Bits, ByteInt;
    var out := new bv8[64](i => 0);
    Sha3(KeccakF, out, 72, Bits(input));
    StoreInts(h, out[..]);
  }

  method StoreInts(h: array<Byte>, out: seq<bv8>)
    requires h.Length == |out|
    modifies h
    ensures h[..] == Ints(out)
  {
    hide ByteInt;
    for i := 0 to |out|
      invariant forall k :: 0 <= k < i ==> h[k] == ByteInt(out[k])
    {
      h[i] := ByteInt(out[i]);
    }
  }

  // kyber_shake256_rkprf: the key and the ciphertext are absorbed one after the other
  method Shake256Rkprf(out: array<bv8>, key: seq<Byte>, input: seq<Byte>)
    requires out.Length == 32
    modifies out
    ensures Ints(out[..]) == Rkprf(key, input)
  {
    hide Absorb, Finalize, Out, After, KeccakF, Bits, Ints;
    var s := new Lane[25](i => 0);
    assert s[..] == Zeros();
    var p := KeccakAbsorb(KeccakF, s, 0, 136, Bits(key));
    p := KeccakAbsorb(KeccakF, s, p, 136, Bits(input));
    AbsorbAppend(KeccakF, 136, Sponge(Zeros(), 0), Bits(key), Bits(input));
    BitsAppend(key, input);
    KeccakFinalize(s, p, 136, 0x1F);
    p := KeccakSqueeze(KeccakF, out, 0, 32, s, 136, 136);
    assert out[..] == out[0..32];
  }

  // ----- Noise -----

  function NoisePoly(seed: seq<Byte>, nonce: Byte, eta: nat): (r: Elem)
    ensures Bounded(r, eta)
  {
    CbdPoly(Prf(seed, nonce, 64 * eta), eta)
  }

  // prf of poly_getnoise_eta1 and poly_getnoise_eta2
  method PrfBytes(seed: seq<Byte>, nonce: Byte, n: nat) returns (buf: array<Byte>)
    ensures fresh(buf) && buf[..] == Prf(seed, nonce, n)
  {
    hide Hash, KeccakF, Bits, ByteInt;
    var out := new bv8[n](i => 0);
    Shake(KeccakF, out, 136, Bits(seed + [nonce]));
    buf := new Byte[n](i => 0);
    StoreInts(buf, out[..]);
  }

  method PolyGetnoiseEta1(r: array<int>, seed: seq<Byte>, nonce: Byte)
    requires r.Length == 256
    modifies r
    ensures r[..] == NoisePoly(seed, nonce, 3)
  {
    hide Prf, CbdPoly;
    var buf := PrfBytes(seed, nonce, 192);
    Cbd3(r, buf);
  }

  method PolyGetnoiseEta2(r: array<int>, seed: seq<Byte>, nonce: Byte)
    requires r.Length == 256
    modifies r
    ensures r[..] == NoisePoly(seed, nonce, 2)
  {
    hide Prf, CbdPoly;
    var buf := PrfBytes(seed, nonce, 128);
    Cbd2(r, buf);
  }

  // ----- The matrix -----

  // Block i of SHAKE128(seed || x || y)
  function XofBlock(seed: seq<Byte>, x: nat, y: nat, i: nat): (b: seq<Byte>)
    ensures |b| == XOF_BLOCKBYTES
  {
    Ints(Hash(KeccakF, 168, Bits(seed + [x % 256, y % 256]), 0x1F, 168 * i + 168)[168 * i..])
  }

  function Xof(seed: seq<Byte>): (nat, nat, nat) -> seq<Byte> {
    (x: nat, y: nat, i: nat) => XofBlock(seed, x, y, i)
  }

  lemma XofLength(seed: seq<Byte>)
    ensures forall x, y, i :: |Xof(seed)(x, y, i)| == XOF_BLOCKBYTES
    ensures forall x, y, i :: |StreamOf(Xof(seed), x, y)(i)| == XOF_BLOCKBYTES
  {
    hide XofBlock;
  }

  // The first m blocks hold 256 accepted values
  ghost predicate Suffices(seed: seq<Byte>, x: nat, y: nat, m: nat) {
    XofLength(seed);
    |AllAccepted(Blocks(StreamOf(Xof(seed), x, y), m))| >= 256
  }

  // What the loop of gen_matrix ends with; the value for a stream on which it never ends is
  // immaterial
  ghost function MatrixPoly(seed: seq<Byte>, x: nat, y: nat): (r: Elem)
    ensures Within(r, 0, Q)
  {
    hide XofBlock, Accepted, ValueOf, Blocks;
    if exists m: nat :: Suffices(seed, x, y, m) then
      XofLength(seed);
      var m: nat :| Suffices(seed, x, y, m);
      var b := Blocks(StreamOf(Xof(seed), x, y), m);
      AcceptedRange(ValueOf(b), 2 * (|b| / 3));
      AllAccepted(b)[..256]
    else Zero(256)
  }

  // ----- K-PKE and the KEM on these functions -----

  ghost function KyberSampler(): Sampler {
    Sampler(s => HashG(s), (s, x: nat, y: nat) => MatrixPoly(s, x, y),
            (s, n: nat, eta: nat) => NoisePoly(s, n % 256, eta))
  }

  function KyberHashes(): Hashes {
    Hashes(s => HashH(s), (s, t) => Rkprf(s, t))
  }

  lemma KyberValid()
    ensures ValidSampler(KyberSampler()) && ValidHashes(KyberHashes())
  {
    hide HashG, HashH, Rkprf, MatrixPoly, NoisePoly;
  }

  // gen_matrix computes the matrix of this sampler: both orders of its entries
  lemma {:induction false} MatrixIsGenerated(seed: seq<Byte>, limit: nat, x: nat, y: nat)
    requires XofOk(Xof(seed), limit) && x < 2 && y < 2
    ensures EntryOf(Xof(seed), limit, x, y) == KyberSampler().matrix(seed, x, y)
  {
    hide XofBlock, Accepted, ValueOf, Blocks, AllAccepted;
    XofLength(seed);
    assert Suffices(seed, x, y, limit);
    var m: nat :| Suffices(seed, x, y, m)
      && KyberSampler().matrix(seed, x, y) == AllAccepted(Blocks(StreamOf(Xof(seed), x, y), m))[..256];
    assert Suffices(seed, x, y, m);
    SameEntry(StreamOf(Xof(seed), x, y), m, limit);
  }

  // The noise of this sampler is what poly_getnoise_eta1 and poly_getnoise_eta2 write for the same seed and nonce, its
  // matrix is that of gen_matrix, and its seeds are halves of SHA3-512
  lemma KyberSamples(seed: seq<Byte>, nonce: Byte, x: nat, y: nat)
    ensures KyberSampler().noise(seed, nonce, 3) == NoisePoly(seed, nonce, 3)
    ensures KyberSampler().noise(seed, nonce, 2) == NoisePoly(seed, nonce, 2)
    ensures KyberSampler().matrix(seed, x, y) == MatrixPoly(seed, x, y) && KyberSampler().hashG(seed) == HashG(seed)
  {
    hide HashG, MatrixPoly, NoisePoly;
  }

  // pk and sk are a K-PKE key pair whose matrix and noise come from the halves of SHA3-512(d || 2)
  ghost predicate KyberKeyPair(d: seq<Byte>, pk: seq<Byte>, sk: seq<Byte>)
    requires |pk| == 800 && |sk| == 768
  {
    hide HashG, MatrixPoly, NoisePoly, RowInRing, TransformOf;
    var g := HashG(d + [2]);
    var rho, sigma := g[..32], g[32..];
    var s0, s1 := NoisePoly(sigma, 0, 3), NoisePoly(sigma, 1, 3);
    && pk[768..] == rho
    && RowInRing(pk[..384], MatrixPoly(rho, 0, 0), MatrixPoly(rho, 1, 0), s0, s1, NoisePoly(sigma, 2, 3))
    && RowInRing(pk[384..768], MatrixPoly(rho, 0, 1), MatrixPoly(rho, 1, 1), s0, s1, NoisePoly(sigma, 3, 3))
    && TransformOf(sk[..384], s0) && TransformOf(sk[384..], s1)
  }

  lemma KyberKeyPairIs(d: seq<Byte>, pk: seq<Byte>, sk: seq<Byte>)
    requires |pk| == 800 && |sk| == 768 && ValidSampler(KyberSampler())
    ensures KeyPairOf(KyberSampler(), d, pk, sk) <==> KyberKeyPair(d, pk, sk)
  {
    hide HashG, MatrixPoly, NoisePoly, RowInRing, TransformOf;
  }

  // The keys of key generation: the K-PKE key pair of the first 32 coins, H(pk), and the last 32 coins
  lemma {:induction false} KyberKeys(coins: seq<Byte>)
    requires |coins| == 64
    ensures ValidSampler(KyberSampler()) && ValidHashes(KyberHashes())
    ensures var pk, sk := KemPublic(KyberSampler(), coins), KemSecret(KyberSampler(), KyberHashes(), coins);
      && KyberKeyPair(coins[..32], pk, sk[..768]) && sk[768..1568] == pk && sk[1568..1600] == HashH(pk)
      && sk[1600..] == coins[32..]
  {
    hide HashG, HashH, Rkprf, PublicBytes, SecretBytes, KeyMaterialOf, KyberKeyPair, KeyPairOf, KyberSampler;
    KyberValid();
    KeyPairLaw(KyberSampler(), coins[..32]);
    var pk, sk := KemPublic(KyberSampler(), coins), KemSecret(KyberSampler(), KyberHashes(), coins);
    assert sk[..768] == SecretBytes(KeyMaterialOf(KyberSampler(), coins[..32]));
    KyberKeyPairIs(coins[..32], pk, sk[..768]);
    KemSecretLayout(KyberSampler(), KyberHashes(), coins);
  }

  // The ciphertext encapsulation sends: an encryption of m whose noise comes from the second half of
  // SHA3-512(m || SHA3-256(pk)) and whose matrix seed is the end of pk
  lemma {:induction false} KyberCiphertext(pk: seq<Byte>, m: Seed)
    requires |pk| == 800
    ensures ValidSampler(KyberSampler())
    ensures var r := HashG(m + HashH(pk))[32..];
      exists u0: Elem, u1: Elem, v: Elem ::
        CipherPolys(EncapsCt(KyberSampler(), KyberHashes(), pk, m), u0, u1, v) && KyberEncryption(m, pk, r, u0, u1, v)
  {
    hide HashG, HashH, MatrixPoly, NoisePoly, Rkprf, CipherPolys, EncBytes, KyberEncryption, EncryptionOf,
      KyberSampler;
    KyberValid();
    var z := KyberSampler();
    var r := HashG(m + HashH(pk))[32..];
    KyberSamples(m + HashH(pk), 0, 0, 0);
    CiphertextLaw(z, m, pk, r);
    var u0: Elem, u1: Elem, v: Elem :| CipherPolys(EncBytes(z, m, pk, r), u0, u1, v)
      && EncryptionOf(z, m, pk, r, u0, u1, v);
    KyberEncryptionIs(m, pk, r, u0, u1, v);
  }

  ghost predicate KyberEncryption(m: seq<Byte>, pk: seq<Byte>, r: seq<Byte>, u0: Elem, u1: Elem, v: Elem)
    requires |m| == 32 && |pk| == 800
  {
    hide HashG, HashH, MatrixPoly, NoisePoly, InRing, Unhat, FromBytes, MsgPoly, Add;
    var rho := pk[768..];
    var r0, r1 := NoisePoly(r, 0, 3), NoisePoly(r, 1, 3);
    && InRing(u0, Unhat(MatrixPoly(rho, 0, 0)), Unhat(MatrixPoly(rho, 0, 1)), r0, r1, NoisePoly(r, 2, 2))
    && InRing(u1, Unhat(MatrixPoly(rho, 1, 0)), Unhat(MatrixPoly(rho, 1, 1)), r0, r1, NoisePoly(r, 3, 2))
    && InRing(v, Unhat(FromBytes(pk[..384])), Unhat(FromBytes(pk[384..768])), r0, r1,
              Add(NoisePoly(r, 4, 2), MsgPoly(m)))
  }

  lemma KyberEncryptionIs(m: seq<Byte>, pk: seq<Byte>, r: seq<Byte>, u0: Elem, u1: Elem, v: Elem)
    requires |m| == 32 && |pk| == 800 && ValidSampler(KyberSampler())
    ensures EncryptionOf(KyberSampler(), m, pk, r, u0, u1, v) <==> KyberEncryption(m, pk, r, u0, u1, v)
  {
    hide HashG, HashH, MatrixPoly, NoisePoly, InRing, Unhat, FromBytes, MsgPoly, Add;
  }

  // Encapsulating and decapsulating with SHA-3 and SHAKE: the key and the encryption coins are the two halves of
  // SHA3-512(m || SHA3-256(pk)), and a message lost to noise gives SHAKE256(z || ct)
  lemma {:induction false} KyberRoundTrip(coins: seq<Byte>, m: Seed)
    requires |coins| == 64
    ensures ValidSampler(KyberSampler()) && ValidHashes(KyberHashes())
    ensures var z, f := KyberSampler(), KyberHashes();
      var pk, sk := KemPublic(z, coins), KemSecret(z, f, coins);
      var kr := HashG(m + HashH(pk));
      var ct, x := EncBytes(z, m, pk, kr[32..]), KeyMaterialOf(z, coins[..32]);
      var small := NoiseSmall(NoiseOf(z, x, m, kr[32..]), BytesToBits(m));
      && EncapsCt(z, f, pk, m) == ct && EncapsKey(z, f, pk, m) == kr[..32]
      && (small ==> Decaps(z, f, ct, sk) == kr[..32])
      && (!small && EncapsCt(z, f, pk, Recovered(ct, sk)) != ct ==> Decaps(z, f, ct, sk) == Rkprf(coins[32..], ct))
  {
    hide EncBytes, DecBytes, NoiseSmall, NoiseOf, PublicBytes, SecretBytes, BytesToBits, KeyMaterialOf, HashG, HashH,
      Rkprf, Decaps, KemPublic, KemSecret, Recovered;
    KyberValid();
    DecapsHonest(KyberSampler(), KyberHashes(), coins, m);
    assert KyberSampler().hashG(m + HashH(KemPublic(KyberSampler(), coins)))
      == HashG(m + HashH(KemPublic(KyberSampler(), coins)));
  }
}
