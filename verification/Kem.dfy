/** The key encapsulation mechanism of kyber/ref/kem.c (section 6 of FIPS 203), with hash_h, hash_g
    and rkprf as functions, and the mask arithmetic of kyber/ref/verify.c it selects the key with. */
module Kem {
  import opened Codecs
  import opened Packing
  import opened KpkeCorrect
  import opened Indcpa

  // ----- verify.c -----

  lemma BvByte(x: Byte)
    ensures (x as bv8) as int == x
  {
    // one high digit at a time
    var q := x / 16;
    assert x == 16 * q + x % 16;
    match q
    case 0 => case 1 => case 2 => case 3 => case 4 => case 5 => case 6 => case 7 =>
    case 8 => case 9 => case 10 => case 11 => case 12 => case 13 => case 14 => case _ =>
  }

  lemma XorZero(x: Byte, y: Byte)
    ensures (x as bv8) ^ (y as bv8) == 0 <==> x == y
  {
    BvByte(x);
    BvByte(y);
  }

  lemma SignMask(r: bv8)
    ensures (-(r as bv64)) >> 63 == (if r == 0 then 0 else 1)
  {
  }

  // 0 exactly when the arrays are equal, 1 otherwise
  method Verify(a: array<Byte>, b: array<Byte>, len: nat) returns (fail: bv64)
    requires len <= a.Length && len <= b.Length
    ensures fail == if a[..len] == b[..len] then 0 else 1
  {
    var r: bv8 := 0;
    var i := 0;
    while i < len
      invariant 0 <= i <= len
      invariant r == 0 <==> a[..i] == b[..i]
    {
      XorZero(a[i], b[i]);
      OrZero(r, (a[i] as bv8) ^ (b[i] as bv8));
      r := r | ((a[i] as bv8) ^ (b[i] as bv8));
      assert a[..i + 1] == a[..i] + [a[i]] && b[..i + 1] == b[..i] + [b[i]];
      i := i + 1;
    }
    SignMask(r);
    fail := (-(r as bv64)) >> 63;
  }

  lemma OrZero(x: bv8, y: bv8)
    ensures x | y == 0 <==> x == 0 && y == 0
  {
  }

  // r ^= b & (r ^ x)
  function SelectBits(r: bv8, x: bv8, mask: bv8): (s: bv8)
    ensures mask == 0xff ==> s == x
    ensures mask == 0 ==> s == r
  {
    r ^ (mask & (r ^ x))
  }

  function ToBits(x: Byte): bv8 {
    x as bv8
  }

  function FromBits(x: bv8): (r: Byte) {
    x as int
  }

  lemma FromToBits(x: Byte)
    ensures FromBits(ToBits(x)) == x
  {
    BvByte(x);
  }

  function Select(r: Byte, x: Byte, mask: bv8): (s: Byte) {
    FromBits(SelectBits(ToBits(r), ToBits(x), mask))
  }

  // The mask is all ones or all zeros
  lemma SelectByMask(r: Byte, x: Byte, b: bv8)
    requires b == 0 || b == 1
    ensures Select(r, x, -b) == if b == 1 then x else r
  {
    hide ToBits, FromBits, SelectBits;
    assert b == 1 ==> -b == 0xff;
    assert b == 0 ==> -b == 0;
    FromToBits(r);
    FromToBits(x);
  }

  // Copies len bytes of x to r if b is 1, nothing if b is 0
  method Cmov(r: array<Byte>, x: seq<Byte>, len: nat, b: bv8)
    requires len <= r.Length && len <= |x| && (b == 0 || b == 1)
    modifies r
    ensures r[..len] == if b == 1 then x[..len] else old(r[..len])
    ensures r[len..] == old(r[len..])
  {
    hide Select;
    var mask := -b;
    ghost var s := r[..];
    var i := 0;
    while i < len
      invariant 0 <= i <= len
      invariant forall p :: i <= p < r.Length ==> r[p] == s[p]
      invariant forall p :: 0 <= p < i ==> r[p] == if b == 1 then x[p] else s[p]
    {
      SelectByMask(r[i], x[i], b);
      r[i] := Select(r[i], x[i], mask);
      i := i + 1;
    }
  }

  // ----- kem.c -----

  datatype Hashes = Hashes(h: seq<Byte> -> seq<Byte>, rkprf: (seq<Byte>, seq<Byte>) -> seq<Byte>)

  ghost predicate ValidHashes(f: Hashes) {
    && (forall s :: |f.h(s)| == 32)
    && (forall s, t :: |f.rkprf(s, t)| == 32)
  }

  // The decapsulation key: K-PKE secret key, public key, H(pk), z
  function DecapsKey(sk: seq<Byte>, pk: seq<Byte>, hpk: seq<Byte>, z: seq<Byte>): (k: seq<Byte>) {
    sk + pk + hpk + z
  }

  ghost function KemPublic(z: Sampler, coins: seq<Byte>): (pk: seq<Byte>)
    requires ValidSampler(z) && |coins| == 64
    ensures |pk| == 800
  {
    PublicBytes(KeyMaterialOf(z, coins[..32]))
  }

  ghost function KemSecret(z: Sampler, f: Hashes, coins: seq<Byte>): (sk: seq<Byte>)
    requires ValidSampler(z) && ValidHashes(f) && |coins| == 64
    ensures |sk| == 1632
  {
    hide PublicBytes, SecretBytes, KeyMaterialOf, KemPublic;
    DecapsKey(SecretBytes(KeyMaterialOf(z, coins[..32])), KemPublic(z, coins), f.h(KemPublic(z, coins)), coins[32..])
  }

  // (K, r) = G(m || H(pk))
  ghost function SharedAndCoins(z: Sampler, m: seq<Byte>, hpk: seq<Byte>): (r: (Seed, Seed))
    requires ValidSampler(z)
  {
    var kr := z.hashG(m + hpk);
    (kr[..32], kr[32..])
  }

  ghost function EncapsCt(z: Sampler, f: Hashes, pk: seq<Byte>, m: Seed): (ct: seq<Byte>)
    requires ValidSampler(z) && |pk| == 800
    ensures |ct| == 768
  {
    EncBytes(z, m, pk, SharedAndCoins(z, m, f.h(pk)).1)
  }

  ghost function EncapsKey(z: Sampler, f: Hashes, pk: seq<Byte>, m: Seed): (ss: Seed)
    requires ValidSampler(z)
  {
    SharedAndCoins(z, m, f.h(pk)).0
  }

  // The re-encryption of the decrypted message
  ghost function Reencrypted(z: Sampler, ct: seq<Byte>, sk: seq<Byte>): (c: seq<Byte>)
    requires ValidSampler(z) && |ct| == 768 && |sk| == 1632
  {
    hide EncBytes, DecBytes, ValidSampler;
    var m := DecBytes(ct, sk[..768]);
    EncBytes(z, m, sk[768..1568], SharedAndCoins(z, m, sk[1568..1600]).1)
  }

  // Implicit rejection: the derived key if the re-encryption matches, else rkprf(z, ct)
  ghost function Decaps(z: Sampler, f: Hashes, ct: seq<Byte>, sk: seq<Byte>): (ss: seq<Byte>)
    requires ValidSampler(z) && |ct| == 768 && |sk| == 1632
  {
    if Reencrypted(z, ct, sk) == ct then SharedAndCoins(z, DecBytes(ct, sk[..768]), sk[1568..1600]).0
    else f.rkprf(sk[1600..], ct)
  }

  method KemKeypairDerand(z: Sampler, f: Hashes, pk: array<Byte>, sk: array<Byte>, coins: seq<Byte>)
    requires ValidSampler(z) && ValidHashes(f) && pk.Length == 800 && sk.Length == 1632 && pk != sk && |coins| == 64
    modifies pk, sk
    ensures pk[..] == KemPublic(z, coins) && sk[..] == KemSecret(z, f, coins)
  {
    hide PublicBytes, SecretBytes, KeyMaterialOf, KeyPairOf;
    KeypairDerand(z, pk, sk, coins[..32]);
    ghost var s := sk[..768];
    CopyBytes(sk, 768, pk[..]);
    assert sk[..768] == s;
    CopyBytes(sk, 1568, f.h(pk[..]));
    assert sk[..768] == s && sk[768..1568] == pk[..];
    CopyBytes(sk, 1600, coins[32..]);
    assert sk[..768] == s && sk[768..1568] == pk[..] && sk[1568..1600] == f.h(pk[..]);
    assert sk[..] == sk[..768] + sk[768..1568] + sk[1568..1600] + sk[1600..1632];
  }

  method KemEncDerand(z: Sampler, f: Hashes, ct: array<Byte>, ss: array<Byte>, pk: array<Byte>, coins: Seed)
    requires ValidSampler(z) && ValidHashes(f) && ct.Length == 768 && ss.Length == 32 && pk.Length == 800
    requires ct != pk && ss != pk && ct != ss
    modifies ct, ss
    ensures ct[..] == EncapsCt(z, f, pk[..], coins) && ss[..] == EncapsKey(z, f, pk[..], coins)
  {
    hide EncBytes, CiphertextOf;
    var buf := new Byte[64](i => 0);
    CopyBytes(buf, 0, coins);
    CopyBytes(buf, 32, f.h(pk[..]));
    assert buf[..32] == coins;
    assert buf[..] == buf[..32] + buf[32..64];
    var kr := z.hashG(buf[..]);
    IndcpaEnc(z, ct, buf, pk, 0, kr[32..]);
    assert pk[0..800] == pk[..];
    CopyBytes(ss, 0, kr[..32]);
    assert ss[..] == ss[0..32];
  }

  method KemDec(z: Sampler, f: Hashes, ss: array<Byte>, ct: array<Byte>, sk: array<Byte>)
    requires ValidSampler(z) && ValidHashes(f) && ct.Length == 768 && ss.Length == 32 && sk.Length == 1632
    requires ss != ct && ss != sk
    modifies ss
    ensures ss[..] == Decaps(z, f, ct[..], sk[..])
  {
    hide EncBytes, DecBytes, CiphertextOf;
    var buf := new Byte[64](i => 0);
    var cmp := new Byte[768](i => 0);
    ghost var s := sk[..];
    assert sk[..768] == s[..768] && sk[1568..1600] == s[1568..1600] && sk[1600..] == s[1600..];
    IndcpaDec(buf, ct, sk);
    ghost var m := buf[..32];
    CopyBytes(buf, 32, sk[1568..1600]);
    assert buf[..32] == m;
    assert buf[..] == buf[..32] + buf[32..64];
    var kr := z.hashG(buf[..]);
    IndcpaEnc(z, cmp, buf, sk, 768, kr[32..]);
    var fail := Verify(ct, cmp, 768);
    assert ct[..768] == ct[..] && cmp[..768] == cmp[..] && sk[768..1568] == s[768..1568];
    CopyBytes(ss, 0, f.rkprf(sk[1600..], ct[..]));
    assert ss[0..32] == ss[..] == ss[..32];
    Cmov(ss, kr, 32, if fail == 0 then 1 else 0);
    assert ss[..32] == ss[..];
  }

  // ----- Correctness -----

  // Decapsulation of an honest ciphertext returns the encapsulated key when the K-PKE noise of
  // that encryption is small
  lemma {:induction false} DecapsOfEncaps(z: Sampler, f: Hashes, coins: seq<Byte>, m: Seed)
    requires ValidSampler(z) && ValidHashes(f) && |coins| == 64
    requires var x := KeyMaterialOf(z, coins[..32]);
      var r := SharedAndCoins(z, m, f.h(KemPublic(z, coins))).1;
      NoiseSmall(NoiseOf(z, x, m, r), BytesToBits(m))
    ensures Decaps(z, f, EncapsCt(z, f, KemPublic(z, coins), m), KemSecret(z, f, coins))
         == EncapsKey(z, f, KemPublic(z, coins), m)
  {
    hide EncBytes, DecBytes, NoiseSmall, NoiseOf, PublicBytes, SecretBytes, BytesToBits, KeyMaterialOf;
    var pk, sk := KemPublic(z, coins), KemSecret(z, f, coins);
    var x := KeyMaterialOf(z, coins[..32]);
    assert sk[..768] == SecretBytes(x) && sk[768..1568] == pk && sk[1568..1600] == f.h(pk);
    IndcpaRoundTrip(z, coins[..32], m, SharedAndCoins(z, m, f.h(pk)).1);
  }

  // For every honest ciphertext: the message comes back exactly when the noise is small; if it is
  // not, another message was recovered, and the result is rkprf(z, ct) unless that message
  // encapsulates to the same ciphertext
  lemma {:induction false} DecapsHonest(z: Sampler, f: Hashes, coins: seq<Byte>, m: Seed)
    requires ValidSampler(z) && ValidHashes(f) && |coins| == 64
    ensures var pk, sk := KemPublic(z, coins), KemSecret(z, f, coins);
      var ct, x := EncapsCt(z, f, pk, m), KeyMaterialOf(z, coins[..32]);
      var small := NoiseSmall(NoiseOf(z, x, m, SharedAndCoins(z, m, f.h(pk)).1), BytesToBits(m));
      && (Recovered(ct, sk) == m <==> small)
      && Decaps(z, f, ct, sk) ==
         if small then EncapsKey(z, f, pk, m)
         else if EncapsCt(z, f, pk, Recovered(ct, sk)) == ct then EncapsKey(z, f, pk, Recovered(ct, sk))
         else f.rkprf(coins[32..], ct)
  {
    hide EncBytes, DecBytes, NoiseSmall, NoiseOf, PublicBytes, SecretBytes, BytesToBits, KeyMaterialOf;
    var pk, sk := KemPublic(z, coins), KemSecret(z, f, coins);
    var x := KeyMaterialOf(z, coins[..32]);
    assert sk[..768] == SecretBytes(x);
    KemSecretLayout(z, f, coins);
    IndcpaRoundTrip(z, coins[..32], m, SharedAndCoins(z, m, f.h(pk)).1);
    DecapsAcceptsIff(z, f, EncapsCt(z, f, pk, m), sk, pk, coins[32..]);
  }

  // sk is a decapsulation key for pk with rejection seed s
  predicate SecretFor(f: Hashes, sk: seq<Byte>, pk: seq<Byte>, s: seq<Byte>) {
    |sk| == 1632 && sk[768..1568] == pk && sk[1568..1600] == f.h(pk) && sk[1600..] == s
  }

  lemma KemSecretLayout(z: Sampler, f: Hashes, coins: seq<Byte>)
    requires ValidSampler(z) && ValidHashes(f) && |coins| == 64
    ensures SecretFor(f, KemSecret(z, f, coins), KemPublic(z, coins), coins[32..])
  {
    hide PublicBytes, SecretBytes, KeyMaterialOf, KemPublic;
  }

  // The K-PKE decryption inside decapsulation
  ghost function Recovered(ct: seq<Byte>, sk: seq<Byte>): (m: Seed)
    requires |ct| == 768 && |sk| == 1632
  {
    DecBytes(ct, sk[..768])
  }

  // For every ciphertext: one that is not the encapsulation of its own decryption gets
  // rkprf(z, ct); one that is gets exactly the key its sender holds
  lemma {:induction false} DecapsAcceptsIff(z: Sampler, f: Hashes, ct: seq<Byte>, sk: seq<Byte>, pk: seq<Byte>,
                                            s: seq<Byte>)
    requires ValidSampler(z) && |ct| == 768 && |pk| == 800 && SecretFor(f, sk, pk, s)
    ensures Decaps(z, f, ct, sk)
         == if EncapsCt(z, f, pk, Recovered(ct, sk)) == ct then EncapsKey(z, f, pk, Recovered(ct, sk))
            else f.rkprf(s, ct)
  {
    hide EncBytes, DecBytes;
  }
}
