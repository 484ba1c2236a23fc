/** indcpa_keypair_derand, indcpa_enc and indcpa_dec of kyber/ref/indcpa.c on byte arrays. Each is
    proved to write exactly the bytes of K-PKE key generation, encryption and decryption; hashing
    and sampling from hash output are functions of a Sampler. */
module Indcpa {
  import opened ModQ
  import opened Ring
  import opened NttImpl
  import opened InvNttImpl
  import opened PolyRing
  import opened Codecs
  import opened Packing
  import opened Compression
  import opened Kpke
  import opened KpkeCorrect
  import opened PolyVec

  // hash_g, one matrix entry from (seed, first index, second index), one noise polynomial from
  // (seed, nonce, eta)
  datatype Sampler = Sampler(hashG: seq<Byte> -> seq<Byte>,
                             matrix: (seq<Byte>, nat, nat) -> Elem,
                             noise: (seq<Byte>, nat, nat) -> Elem)

  ghost predicate ValidSampler(z: Sampler) {
    && (forall s :: |z.hashG(s)| == 64)
    && (forall s, i: nat, j: nat :: Within(z.matrix(s, i, j), 0, Q))
    && (forall s, n: nat, eta: nat :: Bounded(z.noise(s, n, eta), eta))
  }

  // ----- Byte-level K-PKE -----

  ghost function MatrixOf(z: Sampler, seed: seq<Byte>): Matrix
    requires ValidSampler(z)
  {
    Matrix(z.matrix(seed, 0, 0), z.matrix(seed, 1, 0), z.matrix(seed, 0, 1), z.matrix(seed, 1, 1))
  }

  ghost function KeyNoiseOf(z: Sampler, seed: seq<Byte>): KeyNoise
    requires ValidSampler(z)
  {
    KeyNoise(z.noise(seed, 0, 3), z.noise(seed, 1, 3), z.noise(seed, 2, 3), z.noise(seed, 3, 3))
  }

  ghost function EncNoiseOf(z: Sampler, coins: seq<Byte>): EncNoise
    requires ValidSampler(z)
  {
    EncNoise(z.noise(coins, 0, 3), z.noise(coins, 1, 3),
             z.noise(coins, 2, 2), z.noise(coins, 3, 2), z.noise(coins, 4, 2))
  }

  // A polynomial as the 384 bytes of its standard representative
  function PolyBytes(s: Elem): (b: seq<Byte>)
    ensures |b| == 384
  {
    CanonicalWithin(s);
    ToBytes(Canonical(s))
  }

  function Canonical(s: Poly): (r: Poly)
    ensures |r| == |s|
  {
    Standard(Reduce(s))
  }

  lemma CanonicalWithin(s: Poly)
    ensures Within(Reduce(s), -Q, Q) && Within(Canonical(s), 0, 4096) && CongSeq(Canonical(s), s)
  {
    hide Cong, Centred, ToStandard;
    ReduceOk(s);
    var r := Reduce(s);
    assert Within(r, -Q, Q) by { assert Bounded(r, 1664); }
    StandardWithin(r);
    CongSeqTrans(Standard(r), r, s);
  }

  type Seed = b: seq<Byte> | |b| == 32 witness seq(32, i => 0)

  // Everything key generation derives from its coins
  datatype KeyMaterial = KeyMaterial(h: Matrix, k: KeyNoise, rho: Seed)

  ghost function KeySeeds(z: Sampler, coins: seq<Byte>): (Seed, Seed)
    requires ValidSampler(z)
  {
    var g := z.hashG(coins + [2]);
    (g[..32], g[32..])
  }

  ghost function KeyMaterialOf(z: Sampler, coins: seq<Byte>): KeyMaterial
    requires ValidSampler(z)
  {
    var (rho, sigma) := KeySeeds(z, coins);
    KeyMaterial(MatrixOf(z, rho), KeyNoiseOf(z, sigma), rho)
  }

  ghost function PublicRow0(x: KeyMaterial): Elem {
    KeyRow(x.h.a00, x.h.a01, x.k.s0, x.k.s1, x.k.e0)
  }

  ghost function PublicRow1(x: KeyMaterial): Elem {
    KeyRow(x.h.a10, x.h.a11, x.k.s0, x.k.s1, x.k.e1)
  }

  // The public key: both rows of t^, then the matrix seed
  ghost function PublicBytes(x: KeyMaterial): (pk: seq<Byte>)
    ensures |pk| == 800
  {
    PolyBytes(PublicRow0(x)) + PolyBytes(PublicRow1(x)) + x.rho
  }

  // The secret key: both polynomials of s^
  ghost function SecretBytes(x: KeyMaterial): (sk: seq<Byte>)
    ensures |sk| == 768
  {
    PolyBytes(Hat(x.k.s0)) + PolyBytes(Hat(x.k.s1))
  }

  ghost function CipherBytes(c: Cipher): (b: seq<Byte>)
    ensures |b| == 768
  {
    Pack10(Compress10All(Standard(c.u0))) + Pack10(Compress10All(Standard(c.u1)))
    + Pack4(Compress4All(Standard(c.v)))
  }

  ghost function EncBytes(z: Sampler, m: seq<Byte>, pk: seq<Byte>, coins: seq<Byte>): (b: seq<Byte>)
    requires ValidSampler(z) && |m| == 32 && |pk| == 800
    ensures |b| == 768
  {
    CipherBytes(Encrypt(MatrixOf(z, pk[768..]), FromBytes(pk[..384]), FromBytes(pk[384..768]),
                        EncNoiseOf(z, coins), MsgPoly(m)))
  }

  ghost function DecBytes(c: seq<Byte>, sk: seq<Byte>): (m: seq<Byte>)
    requires |c| == 768 && |sk| == 768
    ensures |m| == 32
  {
    BitsToBytes(MsgBits(Decrypt(FromBytes(sk[..384]), FromBytes(sk[384..768]),
      Cipher(Decompress10All(Unpack10(c[..320])), Decompress10All(Unpack10(c[320..640])),
             Decompress4All(Unpack4(c[640..768]))))))
  }

  // ----- What the bytes say -----

  // A row of 384 bytes holds, coefficient by coefficient in 0 .. q - 1, the transform of a0 s0 + a1 s1 + e
  ghost predicate RowInRing(b: seq<Byte>, a0: Elem, a1: Elem, s0: Elem, s1: Elem, e: Elem)
    requires |b| == 384
  {
    && Within(FromBytes(b), 0, Q)
    && CongSeq(Unhat(FromBytes(b)), Add(Add(RMul(Unhat(a0), s0), RMul(Unhat(a1), s1)), e))
  }

  // 384 bytes hold the transform of s
  ghost predicate TransformOf(b: seq<Byte>, s: Elem)
    requires |b| == 384
  {
    Within(FromBytes(b), 0, Q) && CongSeq(FromBytes(b), Hat(s))
  }

  // pk and sk are a key pair for these coins. With g = G(coins || k): the matrix entry of row i and column j is sampled
  // from the first half of g with indices j, i; s and e from the second half with nonces 0 to 3 and eta 3; the key
  // rows are A s + e, the public key ends with the first half of g, the secret key is s
  ghost predicate KeyPairOf(z: Sampler, coins: seq<Byte>, pk: seq<Byte>, sk: seq<Byte>)
    requires ValidSampler(z) && |pk| == 800 && |sk| == 768
  {
    hide RowInRing, TransformOf, Within, Bounded;
    var g := z.hashG(coins + [2]);
    var rho, sigma := g[..32], g[32..];
    var s0, s1 := z.noise(sigma, 0, 3), z.noise(sigma, 1, 3);
    && pk[768..] == rho
    && RowInRing(pk[..384], z.matrix(rho, 0, 0), z.matrix(rho, 1, 0), s0, s1, z.noise(sigma, 2, 3))
    && RowInRing(pk[384..768], z.matrix(rho, 0, 1), z.matrix(rho, 1, 1), s0, s1, z.noise(sigma, 3, 3))
    && TransformOf(sk[..384], s0) && TransformOf(sk[384..], s1)
  }

  // The ciphertext bytes of two u polynomials and one v, all with coefficients in 0 .. q - 1
  ghost predicate CipherPolys(c: seq<Byte>, u0: Elem, u1: Elem, v: Elem)
  {
    && Within(u0, 0, Q) && Within(u1, 0, Q) && Within(v, 0, Q)
    && c == Pack10(Compress10All(u0)) + Pack10(Compress10All(u1)) + Pack4(Compress4All(v))
  }

  ghost predicate InRing(u: Elem, x0: Elem, x1: Elem, r0: Elem, r1: Elem, e: Elem) {
    CongSeq(u, Add(Add(RMul(x0, r0), RMul(x1, r1)), e))
  }

  // c is an encryption of m under pk with these coins: r has nonces 0 and 1 and eta 3, e1 nonces 2 and 3 and eta 2,
  // e2 nonce 4 and eta 2; the matrix seed is the end of pk; u = A^T r + e1 and v = t r + e2 + m (q + 1) / 2
  ghost predicate CiphertextOf(z: Sampler, m: seq<Byte>, pk: seq<Byte>, coins: seq<Byte>, c: seq<Byte>)
    requires ValidSampler(z) && |m| == 32 && |pk| == 800
  {
    exists u0: Elem, u1: Elem, v: Elem :: CipherPolys(c, u0, u1, v) && EncryptionOf(z, m, pk, coins, u0, u1, v)
  }

  ghost predicate EncryptionOf(z: Sampler, m: seq<Byte>, pk: seq<Byte>, coins: seq<Byte>, u0: Elem, u1: Elem, v: Elem)
    requires ValidSampler(z) && |m| == 32 && |pk| == 800
  {
    hide InRing, Unhat, FromBytes, MsgPoly, Add, Within, Bounded;
    var seed := pk[768..];
    var r0, r1 := z.noise(coins, 0, 3), z.noise(coins, 1, 3);
    && InRing(u0, Unhat(z.matrix(seed, 0, 0)), Unhat(z.matrix(seed, 0, 1)), r0, r1, z.noise(coins, 2, 2))
    && InRing(u1, Unhat(z.matrix(seed, 1, 0)), Unhat(z.matrix(seed, 1, 1)), r0, r1, z.noise(coins, 3, 2))
    && InRing(v, Unhat(FromBytes(pk[..384])), Unhat(FromBytes(pk[384..768])), r0, r1,
              Add(z.noise(coins, 4, 2), MsgPoly(m)))
  }

  lemma {:induction false} PolyBytesWithin(s: Elem)
    ensures Within(FromBytes(PolyBytes(s)), 0, Q) && CongSeq(FromBytes(PolyBytes(s)), s)
  {
    hide CongSeq, FromBytes, ToBytes, Reduce, Standard, Within;
    CanonicalWithin(s);
    StandardRange(s);
    FromBytesOfToBytes(Canonical(s));
  }

  lemma StandardRange(s: Poly)
    ensures Within(Canonical(s), 0, Q)
  {
    hide Centred, ToStandard;
    ReduceOk(s);
    assert Within(Reduce(s), -Q, Q) by { assert Bounded(Reduce(s), 1664); }
  }

  lemma {:induction false} KeyRowBytes(a0: Elem, a1: Elem, s0: Elem, s1: Elem, e: Elem)
    ensures RowInRing(PolyBytes(KeyRow(a0, a1, s0, s1, e)), a0, a1, s0, s1, e)
  {
    hide CongSeq, FromBytes, PolyBytes, KeyRow, Unhat, RMul, Add, Within;
    var t := KeyRow(a0, a1, s0, s1, e);
    PolyBytesWithin(t);
    KeyRowInRing(a0, a1, s0, s1, e, FromBytes(PolyBytes(t)));
  }

  // Key generation gives a key pair of its coins
  lemma {:induction false} KeyPairLaw(z: Sampler, coins: seq<Byte>)
    requires ValidSampler(z)
    ensures KeyPairOf(z, coins, PublicBytes(KeyMaterialOf(z, coins)), SecretBytes(KeyMaterialOf(z, coins)))
  {
    hide PolyBytes, KeyRow, RowInRing, Hat, CongSeq, FromBytes, Within, Bounded;
    var x := KeyMaterialOf(z, coins);
    var pk, sk := PublicBytes(x), SecretBytes(x);
    assert pk[..384] == PolyBytes(PublicRow0(x)) && pk[384..768] == PolyBytes(PublicRow1(x)) && pk[768..] == x.rho;
    assert sk[..384] == PolyBytes(Hat(x.k.s0)) && sk[384..] == PolyBytes(Hat(x.k.s1));
    KeyRowBytes(x.h.a00, x.h.a01, x.k.s0, x.k.s1, x.k.e0);
    KeyRowBytes(x.h.a10, x.h.a11, x.k.s0, x.k.s1, x.k.e1);
    PolyBytesWithin(Hat(x.k.s0));
    PolyBytesWithin(Hat(x.k.s1));
  }

  lemma {:induction false} CipherRowLaw(x0: Elem, x1: Elem, r0: Elem, r1: Elem, e: Elem)
    ensures var u := Standard(CipherRow(x0, x1, r0, r1, e));
      Within(u, 0, Q) && InRing(u, Unhat(x0), Unhat(x1), r0, r1, e)
  {
    hide CongSeq, Unhat, RMul, Add, Within, Dot, Reduce, Standard;
    var d := Add(Dot(x0, x1, r0, r1), e);
    ReduceOk(d);
    CanonicalWithin(d);
    StandardRange(d);
    DotIsRDot(x0, x1, r0, r1);
    CongSeqRefl(e);
    AddCong(Dot(x0, x1, r0, r1), RDot(Unhat(x0), Unhat(x1), r0, r1), e, e);
    CongSeqTrans(Canonical(d), d, Add(RDot(Unhat(x0), Unhat(x1), r0, r1), e));
  }

  // Encryption gives a ciphertext of its message, key and coins
  lemma {:induction false} CiphertextLaw(z: Sampler, m: seq<Byte>, pk: seq<Byte>, coins: seq<Byte>)
    requires ValidSampler(z) && |m| == 32 && |pk| == 800
    ensures CiphertextOf(z, m, pk, coins, EncBytes(z, m, pk, coins))
  {
    hide CipherRow, InRing, Unhat, FromBytes, MsgPoly, Add, Pack10, Pack4, Compress10All, Compress4All, Standard,
      Within, Bounded;
    var h, n, mu := MatrixOf(z, pk[768..]), EncNoiseOf(z, coins), MsgPoly(m);
    var th0, th1 := FromBytes(pk[..384]), FromBytes(pk[384..768]);
    var c := Encrypt(h, th0, th1, n, mu);
    CipherRowLaw(h.a00, h.a10, n.r0, n.r1, n.f0);
    CipherRowLaw(h.a01, h.a11, n.r0, n.r1, n.f1);
    CipherRowLaw(th0, th1, n.r0, n.r1, Add(n.g, mu));
    var u0: Elem, u1: Elem, v: Elem := Standard(c.u0), Standard(c.u1), Standard(c.v);
    assert CipherPolys(EncBytes(z, m, pk, coins), u0, u1, v);
    assert EncryptionOf(z, m, pk, coins, u0, u1, v);
  }

  // ----- Rows on arrays -----

  // r holds the NTT of s
  ghost predicate Holds(r: array<int>, s: Elem)
    reads r
  {
    r.Length == 256 && r[..] == PolyNttSpec(s)
  }

  method CopyPoly(r: array<int>, s: Elem)
    requires r.Length == 256
    modifies r
    ensures r[..] == s
  {
    var i := 0;
    while i < 256
      invariant 0 <= i <= 256
      invariant forall p :: 0 <= p < i ==> r[p] == s[p]
    {
      r[i] := s[i];
      i := i + 1;
    }
  }

  // polyvec_basemul_acc_montgomery, then invntt_tomont
  method AccInv(r: array<int>, x0: array<int>, x1: array<int>, sp0: array<int>, sp1: array<int>,
                ghost r0: Elem, ghost r1: Elem)
    requires r.Length == x0.Length == x1.Length == sp0.Length == sp1.Length == 256
    requires r != x0 && r != x1 && r != sp0 && r != sp1
    requires sp0[..] == PolyNttSpec(r0) && sp1[..] == PolyNttSpec(r1)
    requires Bounded(x0[..], 4095) && Bounded(x1[..], 4095)
    modifies r
    ensures CongSeq(r[..], Dot(x0[..], x1[..], r0, r1)) && Bounded(r[..], Q - 1)
  {
    hide CongSeq, Bounded, Dot, PolyNttSpec, InvNttC, AccC;
    RowOk(x0[..], x1[..], r0, r1);
    BasemulAcc(r, x0, x1, sp0, sp1);
    InvNttInPlace(r);
  }

  lemma RowPlus(s: Poly, d: Poly, e: Poly, b: int)
    requires |s| == |d| == |e| && CongSeq(s, d) && Bounded(s, Q - 1) && Bounded(e, b) && b + Q < 32768
    ensures Reduce(Add16(s, e)) == Reduce(Add(d, e)) && AllFit16(Add16(s, e))
    ensures Add16(s, e) == Add(s, e) && Bounded(Add(s, e), b + Q - 1) && CongSeq(Add(s, e), Add(d, e))
  {
    hide CongSeq, Bounded, Reduce, Add, Add16;
    Add16Exact(s, e, Q - 1, b);
    CongSeqRefl(e);
    AddCong(s, d, e, e);
    ReduceCong(Add(s, e), Add(d, e));
  }

  // One row of u
  method CipherRowC(r: array<int>, x0: array<int>, x1: array<int>, sp0: array<int>, sp1: array<int>,
                    e: array<int>, ghost r0: Elem, ghost r1: Elem)
    requires r.Length == x0.Length == x1.Length == sp0.Length == sp1.Length == e.Length == 256
    requires r != x0 && r != x1 && r != sp0 && r != sp1 && r != e
    requires sp0[..] == PolyNttSpec(r0) && sp1[..] == PolyNttSpec(r1)
    requires Bounded(x0[..], 4095) && Bounded(x1[..], 4095) && Bounded(e[..], 3)
    modifies r
    ensures r[..] == CipherRow(x0[..], x1[..], r0, r1, e[..])
  {
    hide CongSeq, Bounded, Dot, PolyNttSpec, Reduce, Add, Add16, AllFit16;
    AccInv(r, x0, x1, sp0, sp1, r0, r1);
    RowPlus(r[..], Dot(x0[..], x1[..], r0, r1), e[..], 3);
    PolyAdd(r, e);
    PolyReduce(r);
  }

  // v: e2 and the message are added one after the other
  method CipherLast(r: array<int>, x0: array<int>, x1: array<int>, sp0: array<int>, sp1: array<int>,
                    e: array<int>, k: array<int>, ghost r0: Elem, ghost r1: Elem)
    requires r.Length == x0.Length == x1.Length == sp0.Length == sp1.Length == e.Length == k.Length == 256
    requires r != x0 && r != x1 && r != sp0 && r != sp1 && r != e && r != k
    requires sp0[..] == PolyNttSpec(r0) && sp1[..] == PolyNttSpec(r1)
    requires Bounded(x0[..], 4095) && Bounded(x1[..], 4095) && Bounded(e[..], 3) && Bounded(k[..], 1665)
    modifies r
    ensures r[..] == CipherRow(x0[..], x1[..], r0, r1, Add(e[..], k[..]))
  {
    hide CongSeq, Bounded, Dot, PolyNttSpec, Reduce, Add, Add16, AllFit16;
    AccInv(r, x0, x1, sp0, sp1, r0, r1);
    ghost var d := Dot(x0[..], x1[..], r0, r1);
    LastPlus(r[..], d, e[..], k[..]);
    PolyAdd(r, e);
    PolyAdd(r, k);
    PolyReduce(r);
  }

  lemma LastPlus(s: Poly, d: Poly, e: Poly, k: Poly)
    requires |s| == |d| == |e| == |k| && CongSeq(s, d) && Bounded(s, Q - 1)
    requires Bounded(e, 3) && Bounded(k, 1665)
    ensures Reduce(Add16(Add16(s, e), k)) == Reduce(Add(d, Add(e, k)))
    ensures AllFit16(Add16(s, e)) && AllFit16(Add16(Add16(s, e), k))
  {
    hide CongSeq, Bounded, Reduce, Add, Add16, AllFit16;
    RowPlus(s, d, e, 3);
    Add16Exact(Add(s, e), k, Q + 2, 1665);
    Add16Fits(Add(s, e), k);
    CongSeqRefl(k);
    AddCong(Add(s, e), Add(d, e), k, k);
    ReduceCong(Add(Add(s, e), k), Add(Add(d, e), k));
    AddAssoc(d, e, k);
  }

  lemma Add16Fits(a: Poly, b: Poly)
    requires |a| == |b|
    ensures AllFit16(Add16(a, b))
  {
  }

  // ----- indcpa_enc -----

  lemma WithinBounded(s: Poly, lo: int, hi: int, b: int)
    requires Within(s, lo, hi) && -b <= lo && hi <= b + 1
    ensures Bounded(s, b)
  {
  }

  lemma SamplerAt(z: Sampler, seed: seq<Byte>, i: nat, j: nat)
    requires ValidSampler(z)
    ensures Bounded(z.matrix(seed, i, j), 4095)
    ensures Bounded(z.noise(seed, i, 2), 3) && Bounded(z.noise(seed, i, 3), 3)
  {
    WithinBounded(z.matrix(seed, i, j), 0, Q, 4095);
    WidenBound(z.noise(seed, i, 2), 2, 3);
  }

  // sp = NTT(r), with r the noise polynomial of the given nonce
  method NoiseHat(z: Sampler, coins: seq<Byte>, nonce: nat) returns (r: array<int>)
    requires ValidSampler(z)
    ensures fresh(r) && r.Length == 256
    ensures r[..] == PolyNttSpec(z.noise(coins, nonce, 3))
  {
    hide PolyNttSpec, Bounded, Within;
    SamplerAt(z, coins, nonce, 0);
    r := new int[256](i => 0);
    CopyPoly(r, z.noise(coins, nonce, 3));
    PolyNtt(r, 3);
  }

  method NoisePoly(z: Sampler, coins: seq<Byte>, nonce: nat) returns (r: array<int>)
    requires ValidSampler(z)
    ensures fresh(r) && r.Length == 256 && r[..] == z.noise(coins, nonce, 2) && Bounded(r[..], 3)
  {
    hide Bounded, Within;
    SamplerAt(z, coins, nonce, 0);
    r := new int[256](i => 0);
    CopyPoly(r, z.noise(coins, nonce, 2));
  }

  method MatrixPoly(z: Sampler, seed: seq<Byte>, i: nat, j: nat) returns (r: array<int>)
    requires ValidSampler(z)
    ensures fresh(r) && r.Length == 256 && r[..] == z.matrix(seed, i, j) && Bounded(r[..], 4095)
  {
    hide Bounded, Within;
    SamplerAt(z, seed, i, j);
    r := new int[256](i => 0);
    CopyPoly(r, z.matrix(seed, i, j));
  }

  method UnpackPoly(a: array<Byte>, off: nat) returns (r: array<int>)
    requires off + 384 <= a.Length
    ensures fresh(r) && r.Length == 256 && r[..] == FromBytes(a[off..off + 384]) && Bounded(r[..], 4095)
  {
    hide FromBytes, Bounded;
    r := new int[256](i => 0);
    PolyFromBytes(r, a, off);
    FromBytesWithin(a[off..off + 384]);
    WithinBounded(r[..], 0, 4096, 4095);
  }

  // gen_at: row i of the transposed matrix times sp, plus ep
  // Row i of A^T r + e1, with the matrix and noise of the sampler
  ghost function SampledCipherRow(z: Sampler, seed: seq<Byte>, coins: seq<Byte>, i: nat, r0: Elem,
    r1: Elem): (b: Elem) {
    CipherRow(z.matrix(seed, i, 0), z.matrix(seed, i, 1), r0, r1, z.noise(coins, 2 + i, 2))
  }

  method EncRow(z: Sampler, seed: seq<Byte>, coins: seq<Byte>, i: nat, sp0: array<int>, sp1: array<int>,
                ghost r0: Elem, ghost r1: Elem) returns (b: array<int>)
    requires ValidSampler(z) && Holds(sp0, r0) && Holds(sp1, r1)
    ensures fresh(b) && b.Length == 256
    ensures b[..] == SampledCipherRow(z, seed, coins, i, r0, r1)
  {
    hide Bounded, Within, PolyNttSpec, CipherRow;
    var at0 := MatrixPoly(z, seed, i, 0);
    var at1 := MatrixPoly(z, seed, i, 1);
    var ep := NoisePoly(z, coins, 2 + i);
    b := new int[256](i => 0);
    CipherRowC(b, at0, at1, sp0, sp1, ep, r0, r1);
  }

  method MessagePoly(m: array<Byte>) returns (k: array<int>)
    requires m.Length >= 32
    ensures fresh(k) && k.Length == 256 && k[..] == MsgPoly(m[..32]) && Bounded(k[..], 1665)
  {
    hide MsgPoly, Bounded;
    k := new int[256](i => 0);
    FromMsg(k, m);
    WithinBounded(k[..], 0, 1666, 1665);
  }

  lemma EncryptForm(z: Sampler, seed: seq<Byte>, coins: seq<Byte>, th0: Elem, th1: Elem, mu: Elem,
                    n: EncNoise, c: Cipher)
    requires ValidSampler(z) && n == EncNoiseOf(z, coins) && c == Encrypt(MatrixOf(z, seed), th0, th1, n, mu)
    ensures n.r0 == z.noise(coins, 0, 3) && n.r1 == z.noise(coins, 1, 3)
    ensures c.u0 == CipherRow(z.matrix(seed, 0, 0), z.matrix(seed, 0, 1), n.r0, n.r1, z.noise(coins, 2, 2))
    ensures c.u1 == CipherRow(z.matrix(seed, 1, 0), z.matrix(seed, 1, 1), n.r0, n.r1, z.noise(coins, 3, 2))
    ensures c.v == CipherRow(th0, th1, n.r0, n.r1, Add(z.noise(coins, 4, 2), mu))
  {
    hide CipherRow, Add, Bounded, Within;
  }

  // The parts of the public key stored at pk[off]
  lemma KeySlices(pk: array<Byte>, off: nat)
    requires off + 800 <= pk.Length
    ensures pk[off..off + 384] == pk[off..off + 800][..384]
    ensures pk[off + 384..off + 768] == pk[off..off + 800][384..768]
    ensures pk[off + 768..off + 800] == pk[off..off + 800][768..]
  {
    ArraySlice(pk, off, 800, 0, 384);
    ArraySlice(pk, off, 800, 384, 768);
    ArraySlice(pk, off, 800, 768, 800);
    var s := pk[off..off + 800];
    assert s[0..384] == s[..384] && s[768..800] == s[768..];
  }

  lemma ArraySlice(r: array<Byte>, off: nat, n: nat, i: nat, j: nat)
    requires off + n <= r.Length && i <= j <= n
    ensures r[off + i..off + j] == r[off..off + n][i..j]
  {
    var s, t := r[off + i..off + j], r[off..off + n][i..j];
    assert |s| == |t| == j - i;
    forall q | 0 <= q < j - i ensures s[q] == t[q] {
      assert s[q] == r[off + i + q];
      assert r[off..off + n][i + q] == r[off + i + q];
      assert t[q] == r[off..off + n][i + q];
    }
    assert s == t;
  }

  // The message is the first 32 bytes of m, the public key starts at pk[off]
  method IndcpaEnc(z: Sampler, c: array<Byte>, m: array<Byte>, pk: array<Byte>, off: nat, coins: seq<Byte>)
    requires ValidSampler(z) && c.Length == 768 && m.Length >= 32 && off + 800 <= pk.Length && c != m && c != pk
    modifies c
    ensures c[..] == EncBytes(z, old(m[..32]), old(pk[off..off + 800]), coins)
    ensures CiphertextOf(z, old(m[..32]), old(pk[off..off + 800]), coins, c[..])
  {
    hide CiphertextOf, Bounded, Within, PolyNttSpec, CipherRow, FromBytes, Add, MsgPoly, Pack10, Pack4,
      Compress10All, Compress4All, Standard, Encrypt, MatrixOf, EncNoiseOf;
    var seed := pk[off + 768..off + 800];
    ghost var key := pk[off..off + 800];
    CiphertextLaw(z, m[..32], key, coins);
    ghost var th0, th1, mu := FromBytes(key[..384]), FromBytes(key[384..768]), MsgPoly(m[..32]);
    KeySlices(pk, off);
    ghost var n := EncNoiseOf(z, coins);
    ghost var ct := Encrypt(MatrixOf(z, seed), th0, th1, n, mu);
    EncryptForm(z, seed, coins, th0, th1, mu, n, ct);
    var sp0 := NoiseHat(z, coins, 0);
    var sp1 := NoiseHat(z, coins, 1);
    var b0 := EncRow(z, seed, coins, 0, sp0, sp1, n.r0, n.r1);
    var b1 := EncRow(z, seed, coins, 1, sp0, sp1, n.r0, n.r1);
    var pk0 := UnpackPoly(pk, off);
    var pk1 := UnpackPoly(pk, off + 384);
    var k := MessagePoly(m);
    var epp := NoisePoly(z, coins, 4);
    var v := new int[256](i => 0);
    CipherLast(v, pk0, pk1, sp0, sp1, epp, k, n.r0, n.r1);
    PackCiphertext(c, b0, b1, v, ct);
  }

  method PackCiphertext(r: array<Byte>, b0: array<int>, b1: array<int>, v: array<int>, ghost ct: Cipher)
    requires r.Length == 768 && b0.Length == b1.Length == v.Length == 256
    requires b0[..] == ct.u0 && b1[..] == ct.u1 && v[..] == ct.v
    modifies r
    ensures r[..] == CipherBytes(ct)
  {
    hide Pack10, Pack4, Compress10All, Compress4All, Standard;
    CompressDu(r, 0, b0);
    ghost var p := r[..320];
    CompressDu(r, 320, b1);
    assert r[..320] == p;
    ghost var q := r[320..640];
    CompressDv(r, 640, v);
    assert r[..320] == p && r[320..640] == q;
    assert r[..] == r[..320] + r[320..640] + r[640..768];
  }

  // ----- indcpa_dec -----

  method IndcpaDec(m: array<Byte>, c: array<Byte>, sk: array<Byte>)
    requires m.Length >= 32 && c.Length == 768 && sk.Length >= 768 && m != c && m != sk
    modifies m
    ensures m[..32] == DecBytes(c[..], sk[..768]) && m[32..] == old(m[32..])
  {
    hide Bounded, Within, FromBytes, Unpack10, Unpack4, Decompress10All, Decompress4All,
      PlainPoly, BitsToBytes, MsgBits;
    var b0 := new int[256](i => 0);
    var b1 := new int[256](i => 0);
    var v := new int[256](i => 0);
    DecompressDu(b0, c, 0);
    DecompressDu(b1, c, 320);
    DecompressDv(v, c, 640);
    var s0 := UnpackPoly(sk, 0);
    var s1 := UnpackPoly(sk, 384);
    assert c[0..320] == c[..][..320] && c[320..640] == c[..][320..640] && c[640..768] == c[..][640..768];
    assert sk[0..384] == sk[..768][..384] && sk[384..768] == sk[..768][384..768];
    WithinBounded(b0[..], 0, Q, Q - 1);
    WithinBounded(b1[..], 0, Q, Q - 1);
    WithinBounded(v[..], 0, Q, Q - 1);
    var mp := PlainPolyC(s0, s1, b0, b1, v);
    ToMsg(m, mp);
  }

  method PlainPolyC(s0: array<int>, s1: array<int>, b0: array<int>, b1: array<int>, v: array<int>)
    returns (mp: array<int>)
    requires s0.Length == s1.Length == b0.Length == b1.Length == v.Length == 256
    requires Bounded(s0[..], 4095) && Bounded(s1[..], 4095)
    requires Bounded(b0[..], Q - 1) && Bounded(b1[..], Q - 1) && Bounded(v[..], Q - 1)
    requires b0 != b1 && b0 != s0 && b0 != s1 && b1 != s0 && b1 != s1 && v != b0 && v != b1
    modifies b0, b1
    ensures fresh(mp) && mp.Length == 256
    ensures mp[..] == PlainPoly(s0[..], s1[..], old(b0[..]), old(b1[..]), v[..])
  {
    hide Bounded, PolyNttSpec, Dot, Reduce, CongSeq, Sub, Sub16, AllFit16;
    ghost var u0, u1 := b0[..], b1[..];
    PolyNtt(b0, Q - 1);
    PolyNtt(b1, Q - 1);
    mp := new int[256](i => 0);
    AccInv(mp, s0, s1, b0, b1, u0, u1);
    PlainMinus(mp[..], Dot(s0[..], s1[..], u0, u1), v[..]);
    PolySubFrom(mp, v);
    PolyReduce(mp);
  }

  lemma PlainMinus(s: Poly, d: Poly, v: Poly)
    requires |s| == |d| == |v| && CongSeq(s, d) && Bounded(s, Q - 1) && Bounded(v, Q - 1)
    ensures Reduce(Sub16(v, s)) == Reduce(Sub(v, d)) && AllFit16(Sub16(v, s))
  {
    hide CongSeq, Bounded, Reduce, Sub;
    Add16Exact(v, s, Q - 1, Q - 1);
    CongSeqRefl(v);
    AddCong(v, v, s, d);
    ReduceCong(Sub(v, s), Sub(v, d));
  }

  // ----- Decryption undoes encryption, on bytes -----

  lemma {:induction false} FromPolyBytes(s: Elem)
    ensures CongSeq(FromBytes(PolyBytes(s)), s)
  {
    hide CongSeq, FromBytes, ToBytes, Canonical, Reduce;
    CanonicalWithin(s);
    FromBytesOfToBytes(Canonical(s));
  }

  lemma {:induction false} UnpackCipher(c: Cipher)
    ensures var b := CipherBytes(c);
      Cipher(Decompress10All(Unpack10(b[..320])), Decompress10All(Unpack10(b[320..640])),
             Decompress4All(Unpack4(b[640..768]))) == Rounded(c)
  {
    hide Pack10, Pack4, Unpack10, Unpack4, Compress10All, Compress4All, Decompress10All, Decompress4All, Standard;
    var b := CipherBytes(c);
    var x0, x1, y := Compress10All(Standard(c.u0)), Compress10All(Standard(c.u1)), Compress4All(Standard(c.v));
    assert b[..320] == Pack10(x0) && b[320..640] == Pack10(x1) && b[640..768] == Pack4(y);
    Unpack10OfPack10(x0);
    Unpack10OfPack10(x1);
    Unpack4OfPack4(y);
  }

  ghost predicate KeyBytesFor(x: KeyMaterial, pk: seq<Byte>, sk: seq<Byte>)
    requires |pk| == 800 && |sk| == 768
  {
    KeyOf(x.h, x.k, FromBytes(pk[..384]), FromBytes(pk[384..768]), FromBytes(sk[..384]), FromBytes(sk[384..768]))
  }

  // The key bytes decode to a key of the drawn noise
  lemma {:induction false} KeyBytesOf(x: KeyMaterial)
    ensures PublicBytes(x)[768..] == x.rho && KeyBytesFor(x, PublicBytes(x), SecretBytes(x))
  {
    hide CongSeq, FromBytes, PolyBytes, KeyRow, Hat;
    var pk, sk := PublicBytes(x), SecretBytes(x);
    assert pk[..384] == PolyBytes(PublicRow0(x)) && pk[384..768] == PolyBytes(PublicRow1(x)) && pk[768..] == x.rho;
    assert sk[..384] == PolyBytes(Hat(x.k.s0)) && sk[384..768] == PolyBytes(Hat(x.k.s1));
    FromPolyBytes(PublicRow0(x));
    FromPolyBytes(PublicRow1(x));
    FromPolyBytes(Hat(x.k.s0));
    FromPolyBytes(Hat(x.k.s1));
  }

  // The noise polynomial of encrypting m under this key with these coins
  ghost function NoiseOf(z: Sampler, x: KeyMaterial, m: seq<Byte>, coins: seq<Byte>): (n: Elem)
    requires ValidSampler(z) && |m| == 32
  {
    var pk := PublicBytes(x);
    var c := Encrypt(x.h, FromBytes(pk[..384]), FromBytes(pk[384..768]), EncNoiseOf(z, coins), MsgPoly(m));
    Noise(x.k, EncNoiseOf(z, coins), RoundingOf(c))
  }

  // indcpa_dec(indcpa_enc(m)) == m exactly when every noise coefficient is small
  lemma {:induction false} IndcpaRoundTrip(z: Sampler, keyCoins: seq<Byte>, m: seq<Byte>, coins: seq<Byte>)
    requires ValidSampler(z) && |m| == 32
    ensures var x := KeyMaterialOf(z, keyCoins);
      DecBytes(EncBytes(z, m, PublicBytes(x), coins), SecretBytes(x)) == m
      <==> NoiseSmall(NoiseOf(z, x, m, coins), BytesToBits(m))
  {
    hide CongSeq, FromBytes, Encrypt, Rounded, RoundingOf, Noise, NoiseSmall, KeyOf, PublicBytes, SecretBytes,
      BytesToBits, BitsToBytes, MsgBits, MsgPoly, Decrypt, CipherBytes, Decompress10All, Decompress4All, Bounded,
      Within;
    var x := KeyMaterialOf(z, keyCoins);
    var pk, sk, n := PublicBytes(x), SecretBytes(x), EncNoiseOf(z, coins);
    KeyBytesOf(x);
    UnpackCipher(Encrypt(x.h, FromBytes(pk[..384]), FromBytes(pk[384..768]), n, MsgPoly(m)));
    DecryptionCorrect(x.h, x.k, n, m, FromBytes(pk[..384]), FromBytes(pk[384..768]),
                      FromBytes(sk[..384]), FromBytes(sk[384..768]));
  }

  // ----- indcpa_keypair_derand -----

  // One row of t^: matrix-vector product, poly_tomont, addition of e^, reduction
  method KeyRowC(r: array<int>, a0: array<int>, a1: array<int>, s0: array<int>, s1: array<int>, e: array<int>,
                 ghost n0: Elem, ghost n1: Elem, ghost ne: Elem)
    requires r.Length == a0.Length == a1.Length == s0.Length == s1.Length == e.Length == 256
    requires r != a0 && r != a1 && r != s0 && r != s1 && r != e
    requires s0[..] == PolyNttSpec(n0) && s1[..] == PolyNttSpec(n1) && e[..] == PolyNttSpec(ne)
    requires Bounded(a0[..], 4095) && Bounded(a1[..], 4095)
    modifies r
    ensures r[..] == KeyRow(a0[..], a1[..], n0, n1, ne)
  {
    hide CongSeq, Bounded, PolyNttSpec, AccC, Reduce, Tomont, Add16, AllFit16, KeyRow;
    KeyRowSteps(a0[..], a1[..], n0, n1, ne);
    BasemulAcc(r, a0, a1, s0, s1);
    PolyTomont(r);
    PolyAdd(r, e);
    PolyReduce(r);
  }

  lemma {:induction false} KeyRowSteps(a0: Poly, a1: Poly, n0: Elem, n1: Elem, ne: Elem)
    requires |a0| == |a1| == 256 && Bounded(a0, 4095) && Bounded(a1, 4095)
    ensures var acc := AccC(a0, a1, PolyNttSpec(n0), PolyNttSpec(n1));
      AllFit16(acc) && AllFit16(Add16(Tomont(acc), PolyNttSpec(ne)))
      && Reduce(Add16(Tomont(acc), PolyNttSpec(ne))) == KeyRow(a0, a1, n0, n1, ne)
  {
    hide CongSeq, Bounded, PolyNttSpec, AccC, Reduce, Add16, AllFit16, Hat, HatMul, Add, Scale, Tomont;
    var acc, e := AccC(a0, a1, PolyNttSpec(n0), PolyNttSpec(n1)), PolyNttSpec(ne);
    NttIsHat(n0);
    NttIsHat(n1);
    NttIsHat(ne);
    AccOk(a0, a1, PolyNttSpec(n0), PolyNttSpec(n1), Hat(n0), Hat(n1));
    var d := Add(HatMul(a0, Hat(n0)), HatMul(a1, Hat(n1)));
    SmallFits(acc, 1664);
    CongSeqTrans(Tomont(acc), Scale(65536, acc), d);
    Add16Exact(Tomont(acc), e, Q - 1, 1664);
    Add16Fits(Tomont(acc), e);
    AddCong(Tomont(acc), d, e, Hat(ne));
    ReduceCong(Add(Tomont(acc), e), Add(d, Hat(ne)));
  }

  lemma ReduceTwice(s: Poly)
    ensures Reduce(Reduce(s)) == Reduce(s)
  {
    hide Reduce, CongSeq, Bounded;
    ReduceOk(s);
    ReduceCong(Reduce(s), s);
  }

  // Packing an already reduced polynomial
  method PackPoly(r: array<Byte>, off: nat, a: array<int>, ghost s: Elem)
    requires off + 384 <= r.Length && a.Length == 256 && a[..] == Reduce(s)
    modifies r
    ensures forall p :: 0 <= p < off || off + 384 <= p < r.Length ==> r[p] == old(r[p])
    ensures r[off..off + 384] == PolyBytes(s)
  {
    hide Reduce, Within, ToBytes, Standard, CongSeq;
    CanonicalWithin(s);
    PolyToBytes(r, off, a);
  }

  lemma HatForm(s: Elem)
    ensures PolyNttSpec(s) == Reduce(Hat(s))
  {
    hide Reduce;
  }

  lemma HatForms(x: KeyMaterial)
    ensures PolyNttSpec(x.k.s0) == Reduce(Hat(x.k.s0)) && PolyNttSpec(x.k.s1) == Reduce(Hat(x.k.s1))
    ensures PublicRow0(x) == Reduce(PublicRow0(x)) && PublicRow1(x) == Reduce(PublicRow1(x))
  {
    hide Reduce, KeyRow, Hat, PolyNttSpec;
    HatForm(x.k.s0);
    HatForm(x.k.s1);
    KeyRowReduced(x.h.a00, x.h.a01, x.k.s0, x.k.s1, x.k.e0);
    KeyRowReduced(x.h.a10, x.h.a11, x.k.s0, x.k.s1, x.k.e1);
  }

  lemma KeyRowReduced(a0: Elem, a1: Elem, s0: Elem, s1: Elem, e: Elem)
    ensures Reduce(KeyRow(a0, a1, s0, s1, e)) == KeyRow(a0, a1, s0, s1, e)
  {
    hide Reduce, Hat, HatMul, Add;
    ReduceTwice(Add(Add(HatMul(a0, Hat(s0)), HatMul(a1, Hat(s1))), Hat(e)));
  }

  // Row i of A^ s^ + e^, with the matrix of the sampler
  ghost function SampledKeyRow(z: Sampler, rho: seq<Byte>, i: nat, n0: Elem, n1: Elem, ne: Elem): (t: Elem) {
    KeyRow(z.matrix(rho, 0, i), z.matrix(rho, 1, i), n0, n1, ne)
  }

  // gen_a: row i of the matrix
  method KeyRowFresh(z: Sampler, rho: seq<Byte>, i: nat, s0: array<int>, s1: array<int>, e: array<int>,
                     ghost n0: Elem, ghost n1: Elem, ghost ne: Elem) returns (r: array<int>)
    requires ValidSampler(z) && Holds(s0, n0) && Holds(s1, n1) && Holds(e, ne)
    ensures fresh(r) && r.Length == 256
    ensures r[..] == SampledKeyRow(z, rho, i, n0, n1, ne)
  {
    hide Bounded, Within, PolyNttSpec, KeyRow;
    var a0 := MatrixPoly(z, rho, 0, i);
    var a1 := MatrixPoly(z, rho, 1, i);
    r := new int[256](i => 0);
    KeyRowC(r, a0, a1, s0, s1, e, n0, n1, ne);
  }

  method CopyBytes(r: array<Byte>, off: nat, s: seq<Byte>)
    requires off + |s| <= r.Length
    modifies r
    ensures forall p :: 0 <= p < off || off + |s| <= p < r.Length ==> r[p] == old(r[p])
    ensures r[off..off + |s|] == s
  {
    var i := 0;
    while i < |s|
      invariant 0 <= i <= |s|
      invariant forall p :: 0 <= p < off || off + |s| <= p < r.Length ==> r[p] == old(r[p])
      invariant forall p :: off <= p < off + i ==> r[p] == s[p - off]
    {
      r[off + i] := s[i];
      i := i + 1;
    }
  }

  method KeypairDerand(z: Sampler, pk: array<Byte>, sk: array<Byte>, coins: seq<Byte>)
    requires ValidSampler(z) && pk.Length == 800 && sk.Length >= 768 && pk != sk
    modifies pk, sk
    ensures pk[..] == PublicBytes(KeyMaterialOf(z, coins)) && sk[..768] == SecretBytes(KeyMaterialOf(z, coins))
    ensures sk[768..] == old(sk[768..])
    ensures KeyPairOf(z, coins, pk[..], sk[..768])
  {
    hide Bounded, Within, PolyNttSpec, KeyRow, PolyBytes, Reduce, Hat, KeyPairOf;
    KeyPairLaw(z, coins);
    ghost var x := KeyMaterialOf(z, coins);
    HatForms(x);
    var g := z.hashG(coins + [2]);
    var rho, sigma := g[..32], g[32..];
    var s0 := NoiseHat(z, sigma, 0);
    var s1 := NoiseHat(z, sigma, 1);
    var e0 := NoiseHat(z, sigma, 2);
    var e1 := NoiseHat(z, sigma, 3);
    var t0 := KeyRowFresh(z, rho, 0, s0, s1, e0, x.k.s0, x.k.s1, x.k.e0);
    var t1 := KeyRowFresh(z, rho, 1, s0, s1, e1, x.k.s0, x.k.s1, x.k.e1);
    PackSecret(sk, s0, s1, x);
    PackPublic(pk, t0, t1, rho, x);
  }

  method PackSecret(sk: array<Byte>, s0: array<int>, s1: array<int>, ghost x: KeyMaterial)
    requires sk.Length >= 768 && s0.Length == s1.Length == 256
    requires s0[..] == Reduce(Hat(x.k.s0)) && s1[..] == Reduce(Hat(x.k.s1))
    modifies sk
    ensures sk[..768] == SecretBytes(x) && sk[768..] == old(sk[768..])
  {
    hide PolyBytes, Reduce, Hat;
    PackPoly(sk, 0, s0, Hat(x.k.s0));
    ghost var p := sk[..384];
    PackPoly(sk, 384, s1, Hat(x.k.s1));
    assert sk[..384] == p && sk[..768] == sk[..384] + sk[384..768];
  }

  method PackPublic(pk: array<Byte>, t0: array<int>, t1: array<int>, rho: seq<Byte>, ghost x: KeyMaterial)
    requires pk.Length == 800 && t0.Length == t1.Length == 256 && rho == x.rho
    requires t0[..] == Reduce(PublicRow0(x)) && t1[..] == Reduce(PublicRow1(x))
    modifies pk
    ensures pk[..] == PublicBytes(x)
  {
    hide PolyBytes, Reduce, PublicRow0, PublicRow1;
    PackPoly(pk, 0, t0, PublicRow0(x));
    ghost var p := pk[..384];
    PackPoly(pk, 384, t1, PublicRow1(x));
    assert pk[..384] == p;
    ghost var q := pk[384..768];
    CopyBytes(pk, 768, rho);
    assert pk[..384] == p && pk[384..768] == q && pk[..] == pk[..384] + pk[384..768] + pk[768..800];
  }
}
