/** Decryption correctness of K-PKE: the polynomial that decryption recovers is the message
    polynomial plus one explicit noise polynomial, and the message comes back exactly when every
    centred noise coefficient lies in -832 .. 832 - bit. */
module KpkeCorrect {
  import opened ModQ
  import opened Ring
  import opened PolyRing
  import opened Codecs
  import opened Packing
  import opened Compression
  import opened Kpke

  // s and e of the key, r, e1 and e2 of the encryption
  datatype KeyNoise = KeyNoise(s0: Elem, s1: Elem, e0: Elem, e1: Elem)
  datatype EncNoise = EncNoise(r0: Elem, r1: Elem, f0: Elem, f1: Elem, g: Elem)
  datatype Matrix = Matrix(a00: Elem, a01: Elem, a10: Elem, a11: Elem)
  // Rounding errors of the compressed ciphertext
  datatype Rounding = Rounding(u0: Elem, u1: Elem, v: Elem)

  // e^T r + e2 + c_v - s^T (e1 + c_u)
  function Noise(k: KeyNoise, n: EncNoise, c: Rounding): (r: Poly)
    ensures |r| == 256
  {
    Sub(Add(Add(RDot(k.e0, k.e1, n.r0, n.r1), n.g), c.v),
        RDot(k.s0, k.s1, Add(n.f0, c.u0), Add(n.f1, c.u1)))
  }

  // ----- Exact identity in the ring -----

  lemma {:induction false} MulTriple(a: Poly, s: Poly, r: Poly)
    requires |a| == |s| == |r| == 256
    ensures RMul(RMul(a, s), r) == RMul(s, RMul(a, r))
  {
    hide Mul;
    MulComm(RMul(a, s), r, -1);
    MulSwap(r, a, s, -1);
    MulComm(r, s, -1);
    MulSwap(a, s, r, -1);
  }

  lemma {:induction false} RMulAddLeft(a: Poly, b: Poly, r: Poly)
    requires |a| == |b| == |r| == 256
    ensures RMul(Add(a, b), r) == Add(RMul(a, r), RMul(b, r))
  {
    hide Mul;
    MulAddLeft(a, b, r, -1);
  }

  lemma {:induction false} RMulAddRight(a: Poly, b: Poly, r: Poly)
    requires |a| == |b| == |r| == 256
    ensures RMul(r, Add(a, b)) == Add(RMul(r, a), RMul(r, b))
  {
    hide Mul;
    MulAddRight(r, a, b, -1);
  }

  // (x + e) r, for x = a s + b t
  lemma {:induction false} RowTimes(a: Poly, b: Poly, s: Poly, t: Poly, e: Poly, r: Poly)
    requires |a| == |b| == |s| == |t| == |e| == |r| == 256
    ensures RMul(Add(RDot(a, b, s, t), e), r)
         == Add(Add(RMul(s, RMul(a, r)), RMul(t, RMul(b, r))), RMul(e, r))
  {
    hide RMul, Add;
    RMulAddLeft(RDot(a, b, s, t), e, r);
    RMulAddLeft(RMul(a, s), RMul(b, t), r);
    MulTriple(a, s, r);
    MulTriple(b, t, r);
  }

  // s (a r + b q + f + c)
  lemma {:induction false} TimesRow(s: Poly, a: Poly, b: Poly, r: Poly, q: Poly, f: Poly, c: Poly)
    requires |a| == |b| == |s| == |q| == |f| == |r| == |c| == 256
    ensures RMul(s, Add(Add(RDot(a, b, r, q), f), c))
         == Add(Add(RMul(s, RMul(a, r)), RMul(s, RMul(b, q))), RMul(s, Add(f, c)))
  {
    hide RMul, Add;
    AddAssoc(RDot(a, b, r, q), f, c);
    RMulAddRight(RDot(a, b, r, q), Add(f, c), s);
    RMulAddRight(RMul(a, r), RMul(b, q), s);
  }

  // What decryption computes in the ring from exact ring values
  function RecoveredPoly(m: Matrix, k: KeyNoise, n: EncNoise, c: Rounding, mu: Elem): (w: Poly)
    ensures |w| == 256
  {
    var t0, t1 := Add(RDot(m.a00, m.a01, k.s0, k.s1), k.e0), Add(RDot(m.a10, m.a11, k.s0, k.s1), k.e1);
    var u0, u1 := Add(RDot(m.a00, m.a10, n.r0, n.r1), n.f0), Add(RDot(m.a01, m.a11, n.r0, n.r1), n.f1);
    var v := Add(RDot(t0, t1, n.r0, n.r1), Add(n.g, mu));
    Sub(Add(v, c.v), RDot(k.s0, k.s1, Add(u0, c.u0), Add(u1, c.u1)))
  }

  lemma Cancel(p00: Poly, p01: Poly, p10: Poly, p11: Poly, e0: Poly, e1: Poly, g: Poly, mu: Poly, cv: Poly,
               d0: Poly, d1: Poly)
    requires |p00| == |p01| == |p10| == |p11| == |e0| == |e1| == |g| == |mu| == |cv| == |d0| == |d1|
    ensures Sub(Add(Add(Add(Add(Add(p00, p01), e0), Add(Add(p10, p11), e1)), Add(g, mu)), cv),
                Add(Add(Add(p00, p10), d0), Add(Add(p01, p11), d1)))
         == Add(mu, Sub(Add(Add(Add(e0, e1), g), cv), Add(d0, d1)))
  {
  }

  lemma {:induction false} RecoveredIsNoisy(m: Matrix, k: KeyNoise, n: EncNoise, c: Rounding, mu: Elem)
    ensures RecoveredPoly(m, k, n, c, mu) == Add(mu, Noise(k, n, c))
  {
    hide RMul, Add, Sub;
    RowTimes(m.a00, m.a01, k.s0, k.s1, k.e0, n.r0);
    RowTimes(m.a10, m.a11, k.s0, k.s1, k.e1, n.r1);
    TimesRow(k.s0, m.a00, m.a10, n.r0, n.r1, n.f0, c.u0);
    TimesRow(k.s1, m.a01, m.a11, n.r0, n.r1, n.f1, c.u1);
    Cancel(RMul(k.s0, RMul(m.a00, n.r0)), RMul(k.s1, RMul(m.a01, n.r0)),
           RMul(k.s0, RMul(m.a10, n.r1)), RMul(k.s1, RMul(m.a11, n.r1)),
           RMul(k.e0, n.r0), RMul(k.e1, n.r1), n.g, mu, c.v,
           RMul(k.s0, Add(n.f0, c.u0)), RMul(k.s1, Add(n.f1, c.u1)));
  }

  // ----- The scheme on values -----

  // The ring matrix behind a transform-domain matrix
  ghost function Lift(h: Matrix): Matrix {
    Matrix(Unhat(h.a00), Unhat(h.a01), Unhat(h.a10), Unhat(h.a11))
  }

  ghost predicate PublicRow(t: Elem, a0: Elem, a1: Elem, s0: Elem, s1: Elem, e: Elem) {
    CongSeq(t, KeyRow(a0, a1, s0, s1, e))
  }

  ghost predicate SecretOf(sh: Elem, s: Elem) {
    CongSeq(sh, Hat(s))
  }

  // What the two key halves say about the noise they were made from
  ghost predicate KeyOf(h: Matrix, k: KeyNoise, th0: Elem, th1: Elem, sh0: Elem, sh1: Elem) {
    && PublicRow(th0, h.a00, h.a01, k.s0, k.s1, k.e0)
    && PublicRow(th1, h.a10, h.a11, k.s0, k.s1, k.e1)
    && SecretOf(sh0, k.s0)
    && SecretOf(sh1, k.s1)
  }

  datatype Cipher = Cipher(u0: Elem, u1: Elem, v: Elem)

  // u = NTT^-1(A^T o r^) + e1 and v = NTT^-1(t^^T o r^) + e2 + mu, before compression
  ghost function Encrypt(h: Matrix, th0: Elem, th1: Elem, n: EncNoise, mu: Elem): Cipher {
    Cipher(CipherRow(h.a00, h.a10, n.r0, n.r1, n.f0),
           CipherRow(h.a01, h.a11, n.r0, n.r1, n.f1),
           CipherRow(th0, th1, n.r0, n.r1, Add(n.g, mu)))
  }

  function RoundU(u: Elem): (r: Elem) {
    Decompress10All(Compress10All(Standard(u)))
  }

  function RoundV(v: Elem): (r: Elem) {
    Decompress4All(Compress4All(Standard(v)))
  }

  // The ciphertext after compression and decompression
  function Rounded(c: Cipher): Cipher {
    Cipher(RoundU(c.u0), RoundU(c.u1), RoundV(c.v))
  }

  function RoundingOf(c: Cipher): Rounding {
    Rounding(Sub(RoundU(c.u0), c.u0), Sub(RoundU(c.u1), c.u1), Sub(RoundV(c.v), c.v))
  }

  ghost function Decrypt(sh0: Elem, sh1: Elem, c: Cipher): (w: Elem) {
    PlainPoly(sh0, sh1, c.u0, c.u1, c.v)
  }

  lemma AddSub(a: Poly, b: Poly)
    requires |a| == |b|
    ensures Add(b, Sub(a, b)) == a
  {
  }

  lemma {:induction false} RMulCong(a: Poly, a': Poly, b: Poly, b': Poly)
    requires |a| == |a'| == |b| == |b'| == 256 && CongSeq(a, a') && CongSeq(b, b')
    ensures CongSeq(RMul(a, b), RMul(a', b'))
  {
    hide Mul, CongSeq, Cong;
    CongMinusOne();
    MulCong(a, a', b, b', -1, -1);
  }

  lemma CongMinusOne()
    ensures Cong(-1, -1)
  {
  }

  lemma {:induction false} RDotCong(a: Poly, a': Poly, b: Poly, b': Poly, c: Poly, c': Poly, d: Poly, d': Poly)
    requires |a| == |a'| == |b| == |b'| == |c| == |c'| == |d| == |d'| == 256
    requires CongSeq(a, a') && CongSeq(b, b') && CongSeq(c, c') && CongSeq(d, d')
    ensures CongSeq(RDot(a, b, c, d), RDot(a', b', c', d'))
  {
    hide RMul, CongSeq, Add;
    RMulCong(a, a', c, c');
    RMulCong(b, b', d, d');
    AddCong(RMul(a, c), RMul(a', c'), RMul(b, d), RMul(b', d'));
  }

  // One ciphertext row, plus its rounding error, in the ring
  lemma {:induction false} CipherRowInRing(x0: Poly, x1: Poly, y0: Poly, y1: Poly, r0: Poly, r1: Poly, e: Poly, c: Poly)
    requires |x0| == |x1| == |y0| == |y1| == |r0| == |r1| == |e| == |c| == 256
    requires CongSeq(Unhat(x0), y0) && CongSeq(Unhat(x1), y1)
    ensures CongSeq(Add(CipherRow(x0, x1, r0, r1, e), c), Add(Add(RDot(y0, y1, r0, r1), e), c))
  {
    hide CongSeq, Unhat, RDot, Add, Dot, Reduce;
    CongSeqRefl(r0);
    CongSeqRefl(r1);
    CongSeqRefl(e);
    CongSeqRefl(c);
    var d, f := Dot(x0, x1, r0, r1), RDot(y0, y1, r0, r1);
    DotIsRDot(x0, x1, r0, r1);
    RDotCong(Unhat(x0), y0, Unhat(x1), y1, r0, r0, r1, r1);
    CongSeqTrans(d, RDot(Unhat(x0), Unhat(x1), r0, r1), f);
    AddCong(d, f, e, e);
    ReduceOk(Add(d, e));
    CongSeqTrans(Reduce(Add(d, e)), Add(d, e), Add(f, e));
    AddCong(Reduce(Add(d, e)), Add(f, e), c, c);
  }

  lemma {:induction false} UnhatOfSecret(sh: Poly, s: Poly)
    requires |sh| == |s| == 256 && CongSeq(sh, Hat(s))
    ensures CongSeq(Unhat(sh), s)
  {
    hide CongSeq, Unhat, Hat;
    UnhatCong(sh, Hat(s));
    UnhatOfHat(s);
    CongSeqTrans(Unhat(sh), Unhat(Hat(s)), s);
  }

  // Decryption recovers the message polynomial plus the noise, in canonical form
  lemma {:induction false} DecryptIsNoisy(h: Matrix, k: KeyNoise, n: EncNoise, mu: Elem,
                                          th0: Elem, th1: Elem, sh0: Elem, sh1: Elem)
    requires KeyOf(h, k, th0, th1, sh0, sh1)
    ensures var c := Encrypt(h, th0, th1, n, mu);
      Decrypt(sh0, sh1, Rounded(c)) == Reduce(Add(mu, Noise(k, n, RoundingOf(c))))
  {
    hide CongSeq, Unhat, RDot, Dot, Reduce, KeyRow, Hat, CipherRow, Sub, Add, RoundU, RoundV;
    var c, m := Encrypt(h, th0, th1, n, mu), Lift(h);
    var d := RoundingOf(c);
    AddSub(RoundU(c.u0), c.u0);
    AddSub(RoundU(c.u1), c.u1);
    AddSub(RoundV(c.v), c.v);
    KeyRowInRing(h.a00, h.a01, k.s0, k.s1, k.e0, th0);
    KeyRowInRing(h.a10, h.a11, k.s0, k.s1, k.e1, th1);
    var t0, t1 := Add(RDot(m.a00, m.a01, k.s0, k.s1), k.e0), Add(RDot(m.a10, m.a11, k.s0, k.s1), k.e1);
    var u0, u1 := Add(RDot(m.a00, m.a10, n.r0, n.r1), n.f0), Add(RDot(m.a01, m.a11, n.r0, n.r1), n.f1);
    var v := Add(RDot(t0, t1, n.r0, n.r1), Add(n.g, mu));
    CongSeqRefl(m.a00);
    CongSeqRefl(m.a01);
    CongSeqRefl(m.a10);
    CongSeqRefl(m.a11);
    CipherRowInRing(h.a00, h.a10, m.a00, m.a10, n.r0, n.r1, n.f0, d.u0);
    CipherRowInRing(h.a01, h.a11, m.a01, m.a11, n.r0, n.r1, n.f1, d.u1);
    CipherRowInRing(th0, th1, t0, t1, n.r0, n.r1, Add(n.g, mu), d.v);
    UnhatOfSecret(sh0, k.s0);
    UnhatOfSecret(sh1, k.s1);
    var x0, x1, y := RoundU(c.u0), RoundU(c.u1), RoundV(c.v);
    DotIsRDot(sh0, sh1, x0, x1);
    RDotCong(Unhat(sh0), k.s0, Unhat(sh1), k.s1, x0, Add(u0, d.u0), x1, Add(u1, d.u1));
    CongSeqTrans(Dot(sh0, sh1, x0, x1), RDot(Unhat(sh0), Unhat(sh1), x0, x1),
                 RDot(k.s0, k.s1, Add(u0, d.u0), Add(u1, d.u1)));
    AddCong(y, Add(v, d.v), Dot(sh0, sh1, x0, x1), RDot(k.s0, k.s1, Add(u0, d.u0), Add(u1, d.u1)));
    ReduceCong(Sub(y, Dot(sh0, sh1, x0, x1)), RecoveredPoly(m, k, n, d, mu));
    RecoveredIsNoisy(m, k, n, d, mu);
  }

  // ----- The message comes back exactly when the noise is small -----

  ghost predicate NoiseSmall(noise: Poly, bits: seq<int>)
    requires |noise| == |bits| == 256
  {
    forall i :: 0 <= i < 256 ==> -832 <= Centred(noise[i]) <= 832 - bits[i]
  }

  lemma DecodedBitIff(m: seq<Byte>, noise: Poly, i: nat)
    requires |m| == 32 && |noise| == 256 && i < 256
    ensures MsgBits(Reduce(Add(MsgPoly(m), noise)))[i] == BytesToBits(m)[i]
       <==> -832 <= Centred(noise[i]) <= 832 - BytesToBits(m)[i]
  {
    hide MsgBit, Centred, BytesToBits, MsgCoeff;
    var bits := BytesToBits(m);
    WithinAt(bits, 0, 2, i);
    DecodesIff(bits[i], noise[i]);
  }

  // The message a polynomial stands for
  function MsgOf(w: Elem): (m: seq<Byte>)
    ensures |m| == 32
  {
    BitsToBytes(MsgBits(w))
  }

  lemma {:induction false} DecodesMessageIff(m: seq<Byte>, noise: Poly)
    requires |m| == 32 && |noise| == 256
    ensures MsgOf(Reduce(Add(MsgPoly(m), noise))) == m
       <==> NoiseSmall(noise, BytesToBits(m))
  {
    hide MsgBits, MsgPoly, Reduce, Add, BytesToBits, BitsToBytes, Centred;
    var bits, got := BytesToBits(m), MsgBits(Reduce(Add(MsgPoly(m), noise)));
    forall i | 0 <= i < 256
      ensures got[i] == bits[i] <==> -832 <= Centred(noise[i]) <= 832 - bits[i]
    {
      DecodedBitIff(m, noise, i);
    }
    assert got == bits <==> NoiseSmall(noise, bits);
    BitsRoundTrip(m);
    BytesOfBitsRoundTrip(got);
  }

  // Decrypting what was encrypted, and the noise of that encryption
  ghost function Received(h: Matrix, n: EncNoise, m: seq<Byte>, th0: Elem, th1: Elem, sh0: Elem,
    sh1: Elem): (r: seq<Byte>)
    requires |m| == 32
    ensures |r| == 32
  {
    MsgOf(Decrypt(sh0, sh1, Rounded(Encrypt(h, th0, th1, n, MsgPoly(m)))))
  }

  ghost function NoiseIn(h: Matrix, k: KeyNoise, n: EncNoise, m: seq<Byte>, th0: Elem, th1: Elem): (d: Elem)
    requires |m| == 32
  {
    Noise(k, n, RoundingOf(Encrypt(h, th0, th1, n, MsgPoly(m))))
  }

  // K-PKE.Decrypt(K-PKE.Encrypt(m)) == m, exactly when every noise coefficient is small
  lemma {:induction false} DecryptionCorrect(h: Matrix, k: KeyNoise, n: EncNoise, m: seq<Byte>,
                                             th0: Elem, th1: Elem, sh0: Elem, sh1: Elem)
    requires |m| == 32 && KeyOf(h, k, th0, th1, sh0, sh1)
    ensures Received(h, n, m, th0, th1, sh0, sh1) == m
       <==> NoiseSmall(NoiseIn(h, k, n, m, th0, th1), BytesToBits(m))
  {
    hide MsgOf, MsgPoly, Decrypt, Encrypt, Rounded, RoundingOf, Noise, NoiseSmall, KeyOf, BytesToBits, Reduce, Add;
    DecryptIsNoisy(h, k, n, MsgPoly(m), th0, th1, sh0, sh1);
    DecodesMessageIff(m, Noise(k, n, RoundingOf(Encrypt(h, th0, th1, n, MsgPoly(m)))));
  }
}
