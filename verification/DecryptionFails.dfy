/** K-PKE decryption does fail: with the largest key and encryption noise, every message is lost,
    because coefficient 255 of the noise is 2 * 256 * 9 up to a rounding error of at most 104. */
module DecryptionFails {
  import opened ModQ
  import opened Ring
  import opened NttImpl
  import opened PolyRing
  import opened Codecs
  import opened Packing
  import opened Compression
  import opened Kpke
  import opened KpkeCorrect
  import opened Indcpa

  function Threes(): (r: Elem)
    ensures Bounded(r, 3)
  {
    seq(256, i => 3)
  }

  function Zeros(): (r: Elem)
    ensures Bounded(r, 0)
  {
    Zero(256)
  }

  // ----- The noise -----

  lemma {:induction false} ThreesSum(i: nat)
    requires i <= 256
    ensures SchoolSum(Threes(), Threes(), -1, 255, i) == 9 * (256 - i)
    decreases 256 - i
  {
    if i < 256 {
      ThreesSum(i + 1);
    }
  }

  // No term of coefficient 255 wraps around
  lemma {:induction false} ThreesProduct()
    ensures RMul(Threes(), Threes())[255] == 2304
  {
    hide SchoolSum, Mul;
    MulIsSchoolbook(Threes(), Threes(), -1, 255);
    ThreesSum(0);
  }

  lemma ZeroProduct(b: Elem)
    ensures RMul(Zeros(), b) == Zeros()
  {
    hide Mul;
    MulComm(Zeros(), b, -1);
    MulZero(b, 256, -1);
  }

  // s = 0, e = r = (3, 3, ...), e1 = e2 = 0
  function LargeKeyNoise(): KeyNoise {
    KeyNoise(Zeros(), Zeros(), Threes(), Threes())
  }

  function LargeEncNoise(): EncNoise {
    EncNoise(Threes(), Threes(), Zeros(), Zeros(), Zeros())
  }

  lemma {:induction false} LargeNoise(c: Rounding)
    ensures Noise(LargeKeyNoise(), LargeEncNoise(), c)[255] == 4608 + c.v[255]
  {
    hide RMul;
    ThreesProduct();
    ZeroProduct(Add(Zeros(), c.u0));
    ZeroProduct(Add(Zeros(), c.u1));
  }

  // Rounding v moves a coefficient by at most 104 modulo q
  lemma {:induction false} RoundingBound(v: Elem, i: nat)
    requires Within(v, -Q, Q) && i < 256
    ensures -104 <= Centred(Sub(RoundV(v), v)[i]) <= 104
  {
    hide Compress4, Decompress4, ToStandard, Cong, Centred;
    var x := ToStandard(v[i]);
    DecompressCompress4(x);
    var y := Decompress4(Compress4(x));
    assert RoundV(v)[i] == y;
    CongRefl(y);
    CongNegate(x, v[i]);
    CongAdd(y, y, -x, -v[i]);
    CentredCong(y - x, y - v[i]);
  }

  lemma CongNegate(x: int, y: int)
    requires Cong(x, y)
    ensures Cong(-x, -y)
  {
    CongIntro(-x, -y, -CongQuotient(x, y));
  }

  // Outside -832 .. 832, whatever the rounding
  lemma {:induction false} LargeCoefficient(d: int)
    requires -104 <= Centred(d) <= 104
    ensures Centred(4608 + d) > 832
  {
  }

  lemma {:induction false} LargeNoiseFails(c: Cipher, bits: seq<int>)
    requires Within(c.v, -Q, Q) && |bits| == 256 && Within(bits, 0, 2)
    ensures !NoiseSmall(Noise(LargeKeyNoise(), LargeEncNoise(), RoundingOf(c)), bits)
  {
    hide Noise, RoundV, RoundU, Centred;
    LargeNoise(RoundingOf(c));
    RoundingBound(c.v, 255);
    LargeCoefficient(RoundingOf(c).v[255]);
    WithinAt(bits, 0, 2, 255);
  }

  // ----- Keys and coins that produce it -----

  function Ones(): (r: seq<Byte>)
    ensures |r| == 32
  {
    seq(32, i => 1)
  }

  // A sampler whose output the noise distribution allows: key noise from the zero seed, encryption
  // noise from all ones
  function LargestNoise(): Sampler {
    Sampler(s => seq(64, i => 0), (s, i: nat, j: nat) => Zeros(), (s, n: nat, eta: nat) => DrawnNoise(s, n, eta))
  }

  function DrawnNoise(s: seq<Byte>, n: nat, eta: nat): (r: Elem)
    ensures Bounded(r, eta)
  {
    if eta == 3 && (n >= 2 || s == Ones()) then Threes() else Zeros()
  }

  lemma LargestNoiseValid()
    ensures ValidSampler(LargestNoise())
  {
  }

  lemma {:induction false} LargestNoiseIs(keyCoins: seq<Byte>)
    ensures ValidSampler(LargestNoise())
    ensures KeyMaterialOf(LargestNoise(), keyCoins).k == LargeKeyNoise()
    ensures EncNoiseOf(LargestNoise(), Ones()) == LargeEncNoise()
  {
    hide Bounded, Within, ValidSampler;
    LargestNoiseValid();
    assert LargestNoise().hashG(keyCoins + [2])[32..][0] == 0;
    assert Ones()[0] == 1;
  }

  // Every message is lost
  lemma {:induction false} DecryptionFails(keyCoins: seq<Byte>, m: seq<Byte>)
    requires |m| == 32
    ensures ValidSampler(LargestNoise())
    ensures var x := KeyMaterialOf(LargestNoise(), keyCoins);
      DecBytes(EncBytes(LargestNoise(), m, PublicBytes(x), Ones()), SecretBytes(x)) != m
  {
    hide EncBytes, DecBytes, PublicBytes, SecretBytes, NoiseSmall, Noise, BytesToBits, RoundingOf, LargestNoise,
      ValidSampler, FromBytes, MsgPoly, Dot, Add;
    var z := LargestNoise();
    LargestNoiseIs(keyCoins);
    var x := KeyMaterialOf(z, keyCoins);
    var pk := PublicBytes(x);
    var c := Encrypt(x.h, FromBytes(pk[..384]), FromBytes(pk[384..768]), EncNoiseOf(z, Ones()), MsgPoly(m));
    CipherCentred(x.h, FromBytes(pk[..384]), FromBytes(pk[384..768]), EncNoiseOf(z, Ones()), MsgPoly(m));
    LargeNoiseFails(c, BytesToBits(m));
    IndcpaRoundTrip(z, keyCoins, m, Ones());
  }

  lemma CipherCentred(h: Matrix, th0: Elem, th1: Elem, n: EncNoise, mu: Elem)
    ensures Within(Encrypt(h, th0, th1, n, mu).v, -Q, Q)
  {
    hide Dot, Centred;
    ReduceOk(Add(Dot(th0, th1, n.r0, n.r1), Add(n.g, mu)));
  }
}
