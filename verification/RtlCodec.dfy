/** The small codec blocks of rtl/kyber/kyber_codec_blocks.v and the scaling and canonicalising
    functions of rtl/kyber/kyber512_core_fsm.v, against the C functions they stand for. */
module RtlCodec {
  import opened ModQ
  import opened Codecs
  import opened Packing
  import opened InvNttImpl
  import opened RtlMath

  // ----- kyber_encode1 and kyber_decode1: one lane -----

  function Encode1(c: nat): int {
    if 832 <= c <= 2496 then 1 else 0
  }

  function Decode1(bit: nat): nat {
    if bit == 1 then 1665 else 0
  }

  // The lane and poly_tomsg differ at one residue
  lemma {:induction false} Encode1Iff(x: nat)
    requires x < Q
    ensures Encode1(x) == MsgBit(x) <==> x != 832
  {
    hide MsgBit;
    MsgBitCanonical(x);
  }

  // On canonical input poly_tomsg gives 1 exactly on 833 .. 2496
  lemma MsgBitCanonical(x: nat)
    requires x < Q
    ensures MsgBit(x) == 1 <==> 833 <= x <= 2496
  {
    var y := 2 * x + 1665;
    MsgBitFlat(x);
    assert U32(y * 80635) == y * 80635;
    if x <= 832 {
      assert y <= 3329;
    } else if x <= 2496 {
      assert 3331 <= y <= 6657;
    } else {
      assert 6659 <= y <= 8321;
    }
  }

  lemma Decode1Is(bit: nat)
    requires bit < 2
    ensures Decode1(bit) == MsgCoeff(bit)
  {
  }

  // A message bit survives noise exactly in this range: one step less than in C above 0, and one
  // more below a set bit
  lemma {:induction false} Encode1DecodesIff(bit: nat, noise: int)
    requires bit < 2
    ensures Encode1((Decode1(bit) + noise) % Q) == bit <==> -832 - bit <= Centred(noise) <= 831
  {
    var n := Centred(noise);
    CongRefl(Decode1(bit));
    CentredBound(noise);
    CongSym(n, noise);
    SameRemainder(Decode1(bit) + noise, Decode1(bit) + n, (noise - n) / Q);
  }

  lemma CentredBound(x: int)
    ensures -1664 <= Centred(x) <= 1664 && (x - Centred(x)) % Q == 0
  {
  }

  lemma SameRemainder(x: int, y: int, k: int)
    requires x == y + Q * k
    ensures x % Q == y % Q
  {
  }

  // Both decoders recover a message under the bound of the design
  lemma {:induction false} BothDecode(bit: nat, noise: int)
    requires bit < 2 && -831 <= Centred(noise) <= 831
    ensures Decode1(bit) == MsgCoeff(bit) && Encode1((Decode1(bit) + noise) % Q) == bit
    ensures MsgBit(Centred(MsgCoeff(bit) + noise)) == bit
  {
    hide Centred;
    Decode1Is(bit);
    Encode1DecodesIff(bit, noise);
    DecodesIff(bit, noise);
  }

  // ----- kyber_encode12 and kyber_decode12 -----

  // {coeff1[11:4], {coeff1[3:0], coeff0[11:8]}, coeff0[7:0]}
  function Encode12(t0: nat, t1: nat): nat {
    t0 % 256 + 256 * (t0 / 256 % 16 + 16 * (t1 % 16)) + 65536 * (t1 / 16 % 256)
  }

  // {{din[23:16], din[15:12]}, {din[11:8], din[7:0]}}
  function Decode12(w: nat): (nat, nat) {
    (w % 256 + 256 * (w / 256 % 16), w / 4096 % 16 + 16 * (w / 65536 % 256))
  }

  lemma ThreeBytes(b0: Byte, b1: Byte, b2: Byte)
    ensures var w: nat := b0 + 256 * (b1 as int) + 65536 * (b2 as int);
      w % 256 == b0 && w / 256 == b1 + 256 * (b2 as int) && w / 256 % 256 == b1 && w / 65536 == b2
  {
    var w := b0 + 256 * (b1 as int) + 65536 * (b2 as int);
    OneByte(w, b0, b1 + 256 * (b2 as int));
    OneByte(b1 + 256 * (b2 as int), b1, b2);
    assert w / 65536 == w / 256 / 256;
  }

  lemma OneByte(x: int, lo: Byte, hi: int)
    requires x == lo + 256 * hi
    ensures x % 256 == lo && x / 256 == hi
  {
  }

  lemma SmallMod(x: nat, n: nat)
    requires x < n
    ensures x % n == x
  {
  }

  lemma Encode12Form(t0: nat, t1: nat)
    requires t0 < 4096 && t1 < 4096
    ensures Encode12(t0, t1)
         == Byte12(t0, t1, 0) + 256 * (Byte12(t0, t1, 1) as int) + 65536 * (Byte12(t0, t1, 2) as int)
  {
    assert t0 / 256 < 16 && t1 / 16 < 256;
    SmallMod(t0 / 256, 16);
    SmallMod(t1 / 16, 256);
    LowField16(t1);
  }

  lemma {:induction false} Encode12Is(t0: nat, t1: nat)
    requires t0 < 4096 && t1 < 4096
    ensures var w := Encode12(t0, t1);
      && w % 256 == Byte12(t0, t1, 0) && w / 256 % 256 == Byte12(t0, t1, 1) && w / 65536 == Byte12(t0, t1, 2)
  {
    hide Encode12;
    Encode12Form(t0, t1);
    ThreeBytes(Byte12(t0, t1, 0), Byte12(t0, t1, 1), Byte12(t0, t1, 2));
  }

  lemma {:induction false} Decode12Is(b0: Byte, b1: Byte, b2: Byte)
    ensures Decode12(b0 + 256 * (b1 as int) + 65536 * (b2 as int)) ==
        (Coeff12(b0, b1, b2, false), Coeff12(b0, b1, b2, true))
  {
    hide Low12, High12, Decode12;
    ThreeBytes(b0, b1, b2);
    Halves(b1, b2);
    LowTwelve(b0, b1);
    HighTwelve(b1, b2);
    Decode12Parts(b0 + 256 * (b1 as int) + 65536 * (b2 as int), b1 + 256 * (b2 as int));
  }

  lemma Decode12Parts(w: nat, x: nat)
    requires x == w / 256
    ensures Decode12(w) == (w % 256 + 256 * (x % 16), x / 16 % 16 + 16 * (w / 65536 % 256))
  {
    assert w / 4096 == w / 256 / 16;
  }

  lemma Halves(b1: Byte, b2: Byte)
    ensures (b1 + 256 * (b2 as int)) / 16 % 16 == b1 / 16 && (b1 + 256 * (b2 as int)) % 16 == b1 % 16
  {
    var l, h := b1 % 16, b1 / 16;
    assert b1 == 16 * h + l;
    assert b1 + 256 * (b2 as int) == l + 16 * (h + 16 * (b2 as int));
  }

  lemma LowTwelve(b0: Byte, b1: Byte)
    ensures Low12(b0, b1) == b0 + 256 * (b1 % 16 as int)
  {
    var l, h := b1 % 16, b1 / 16;
    assert b0 + b1 * 256 == b0 + 256 * (l as int) + 4096 * (h as int);
  }

  lemma HighTwelve(b1: Byte, b2: Byte)
    ensures High12(b1, b2) == b1 / 16 + 16 * (b2 as int)
  {
  }

  // ----- After the inverse transform -----

  // mul_1441_shiftadd_s16
  function Mul1441(x: int): int {
    1024 * x + 256 * x + 128 * x + 32 * x + x
  }

  // canonical_modq12
  function Canonical12(x: int): nat {
    (if x < 0 then x + Q else if x >= Q then x - Q else x) % 4096
  }

  lemma Canonical12Is(x: int)
    requires -Q <= x < 2 * Q
    ensures Canonical12(x) == x % Q
  {
  }

  // One coefficient out of the NTT core: multiply, reduce, canonicalise
  function Finish(x: int): nat {
    Canonical12(Mont(Mul1441(x)))
  }

  // It is the canonical value of the last loop of invntt
  lemma {:induction false} FinishIs(x: int, g: int)
    requires 0 <= x <= Q && Fits16(g) && Cong(x, g)
    ensures Finish(x) == FinalFqmul(g) % Q
  {
    hide Mont, Cong, MontgomeryReduce, FinalFqmul;
    var t := Mont(1441 * x);
    MontIsReference(1441 * x);
    assert Mul1441(x) == 1441 * x;
    CongRefl(1441);
    CongMul(1441, 1441, x, g);
    CongSym(FinalFqmul(g) * 65536, g * 1441);
    CongTrans(t * 65536, 1441 * x, 1441 * g);
    CongTrans(t * 65536, 1441 * g, FinalFqmul(g) * 65536);
    CongCancelMont(t, FinalFqmul(g));
    Canonical12Is(t);
    CongRemainder(t, FinalFqmul(g));
  }

  lemma CongRemainder(x: int, y: int)
    requires Cong(x, y)
    ensures x % Q == y % Q
  {
  }
}
