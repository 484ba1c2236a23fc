/** Serialisation and compression of kyber/ref/poly.c and kyber/ref/polyvec.c (sections 4.2.1
    and 5.1 of FIPS 203). Bytes are integers below 256; where C combines disjoint bit fields
    with |, the model adds them. */
module Codecs {
  import opened ModQ

  type Byte = x: int | 0 <= x < 256

  // ----- Canonical representatives -----

  // u += (u >> 15) & q
  function ToStandard(x: int): (r: int)
    ensures -Q <= x < Q ==> 0 <= r < Q && Cong(r, x)
  {
    if x < 0 then x + Q else x
  }

  // ----- Compression -----

  // Compress_d of FIPS 203: the nearest multiple of q / 2^d, modulo 2^d
  function CompressSpec(d: nat, x: int): (r: int)
    requires d == 10 || d == 4 || d == 1
  {
    if d == 10 then (1024 * x + 1664) / Q % 1024
    else if d == 4 then (16 * x + 1664) / Q % 16
    else (2 * x + 1664) / Q % 2
  }

  function Steps(d: nat): (n: nat)
    ensures n > 0
  {
    if d == 10 then 1024 else if d == 4 then 16 else 2
  }

  // The result is k modulo 2^d for the integer k closest to 2^d x / q; there is no tie, q being odd
  lemma CompressNearest(d: nat, x: int) returns (k: int)
    requires (d == 10 || d == 4 || d == 1) && 0 <= x < Q
    ensures -Q < 2 * (Steps(d) * x - Q * k) < Q && CompressSpec(d, x) == k % Steps(d)
  {
    k := (Steps(d) * x + 1664) / Q;
    RoundsTo(Steps(d) * x, k);
  }

  lemma RoundsTo(n: int, k: int)
    requires k == (n + 1664) / Q
    ensures -Q < 2 * (n - Q * k) < Q
  {
  }

  // d0 = ((t << 10) + 1665) * 1290167 >> 32, in 64 bits
  function Compress10(x: int): (r: int)
    ensures 0 <= r < 1024
  {
    (1024 * x + 1665) * 1290167 / 0x1_0000_0000 % 1024
  }

  // 1290167 * q == 2^32 - 1353: the product is off by less than one step unless r == 0, k > 953
  lemma Scaled10(n: int, k: int, r: int)
    requires n == Q * k + r && 0 <= r < Q && 0 <= k <= 1024 && (r == 0 ==> k <= 953)
    ensures (n + 1) * 1290167 / 0x1_0000_0000 == k
  {
    assert (n + 1) * 1290167 == k * 0x1_0000_0000 - 1353 * k + (r + 1) * 1290167;
    assert 0 <= (r + 1) * 1290167 - 1353 * k < 0x1_0000_0000;
  }

  lemma Compress10Exact(x: int)
    requires 0 <= x < Q
    ensures Compress10(x) == CompressSpec(10, x)
  {
    var n := 1024 * x + 1664;
    var k, r := n / Q, n % Q;
    if r == 0 {
      assert k == 640 by { assert 1024 * (x + 1 - 3 * k) == 257 * k - 640; }
    }
    Scaled10(n, k, r);
  }

  // d0 = ((u << 4) + 1665) * 80635 >> 28, in 32 bits
  function Compress4(x: int): (r: int)
    ensures 0 <= r < 16
  {
    U32((16 * x + 1665) * 80635) / 0x1000_0000 % 16
  }

  lemma Compress4Exact(x: int)
    requires 0 <= x < Q
    ensures Compress4(x) == CompressSpec(4, x)
  {
    var n := 16 * x + 1664;
    var k, r := n / Q, n % Q;
    assert n == Q * k + r && 0 <= k <= 16;
    // 80635 * q == 2^28 - 1541
    assert (n + 1) * 80635 == k * 0x1000_0000 - 1541 * k + (r + 1) * 80635;
    assert 0 <= (r + 1) * 80635 - 1541 * k < 0x1000_0000;
  }

  function Decompress10(y: int): (r: int)
    requires 0 <= y < 1024
    ensures 0 <= r < Q
  {
    (y * Q + 512) / 1024
  }

  function Decompress4(y: int): (r: int)
    requires 0 <= y < 16
    ensures 0 <= r < Q
  {
    (y * Q + 8) / 16
  }

  // Decompression is the integer closest to q y / 2^d, upwards on a tie
  lemma DecompressNearest(y: int)
    ensures 0 <= y < 1024 ==> -512 <= Q * y - 1024 * Decompress10(y) < 512
    ensures 0 <= y < 16 ==> -8 <= Q * y - 16 * Decompress4(y) < 8
  {
  }

  lemma CompressDecompress10(y: int)
    requires 0 <= y < 1024
    ensures Compress10(Decompress10(y)) == y
  {
    var x := Decompress10(y);
    Compress10Exact(x);
    assert (1024 * x + 1664) / Q == y;
  }

  lemma CompressDecompress4(y: int)
    requires 0 <= y < 16
    ensures Compress4(Decompress4(y)) == y
  {
    var x := Decompress4(y);
    Compress4Exact(x);
    assert (16 * x + 1664) / Q == y;
  }

  // Decompression after compression moves a coefficient by at most 2 (d = 10) or 104 (d = 4)
  lemma DecompressCompress10(x: int)
    requires 0 <= x < Q
    ensures -2 <= Centred(Decompress10(Compress10(x)) - x) <= 2
  {
    hide Compress10, Cong;
    Compress10Exact(x);
    var k := (1024 * x + 1664) / Q;
    var y := Decompress10(Compress10(x));
    var d := y - x;
    if k < 1024 {
      assert Compress10(x) == k;
      assert -2 <= d <= 2;
    } else {
      assert Compress10(x) == 0 && y == 0;
      assert x >= Q - 2;
    }
  }

  lemma DecompressCompress4(x: int)
    requires 0 <= x < Q
    ensures -104 <= Centred(Decompress4(Compress4(x)) - x) <= 104
  {
    hide Compress4, Cong;
    Compress4Exact(x);
    var k := (16 * x + 1664) / Q;
    var y := Decompress4(Compress4(x));
    var d := y - x;
    if k < 16 {
      assert Compress4(x) == k;
      assert -104 <= d <= 104;
    } else {
      assert Compress4(x) == 0 && y == 0;
      assert x >= Q - 104;
    }
  }

  // ----- Messages -----

  // One coefficient of poly_frommsg
  function MsgCoeff(bit: int): (r: int)
    requires 0 <= bit < 2
    ensures r == 0 || r == 1665
  {
    if bit == 1 then (Q + 1) / 2 else 0
  }

  // One bit of poly_tomsg, in 32-bit unsigned arithmetic
  function MsgBit(x: int): (r: int)
    ensures 0 <= r < 2
  {
    var t := U32(x);
    var t1 := U32(t * 2);
    var t2 := U32(t1 + 1665);
    U32(t2 * 80635) / 0x1000_0000 % 2
  }

  // On centred input the bit is 1 exactly outside -832..832
  lemma MsgBitRange(x: int)
    requires -1664 <= x <= 1664
    ensures MsgBit(x) == 1 <==> (x < -832 || x > 832)
  {
    var y := 2 * x + 1665;
    MsgBitFlat(x);
    if y >= 0 {
      assert U32(y * 80635) == y * 80635;
      if x > 832 { assert y >= 3331; } else { assert y <= 3329; }
    } else {
      assert U32(y * 80635) == y * 80635 + 0x1_0000_0000;
    }
  }

  lemma MsgBitFlat(x: int)
    ensures MsgBit(x) == U32((2 * x + 1665) * 80635) / 0x1000_0000 % 2
  {
    var m := 0x1_0000_0000;
    var t := U32(x);
    var t1 := U32(t * 2);
    var t2 := U32(t1 + 1665);
    var a, b, c := (t - x) / m, (t1 - t * 2) / m, (t2 - (t1 + 1665)) / m;
    assert t2 == 2 * x + 1665 + m * (2 * a + b + c);
    assert t2 * 80635 == (2 * x + 1665) * 80635 + m * (80635 * (2 * a + b + c));
    U32Shift((2 * x + 1665) * 80635, 80635 * (2 * a + b + c));
  }

  lemma U32Shift(x: int, k: int)
    ensures U32(x + 0x1_0000_0000 * k) == U32(x)
  {
  }

  // A message coefficient plus noise decodes to the message bit exactly when the noise is small
  lemma DecodesIff(bit: int, noise: int)
    requires 0 <= bit < 2
    ensures MsgBit(Centred(MsgCoeff(bit) + noise)) == bit
       <==> -832 <= Centred(noise) <= 832 - bit
  {
    var n := Centred(noise);
    var w := Centred(MsgCoeff(bit) + noise);
    MsgBitRange(w);
    CongRefl(MsgCoeff(bit));
    CongSym(n, noise);
    CongAdd(MsgCoeff(bit), MsgCoeff(bit), noise, n);
    CentredCong(MsgCoeff(bit) + noise, MsgCoeff(bit) + n);
    assert w == Centred(MsgCoeff(bit) + n);
  }
}
