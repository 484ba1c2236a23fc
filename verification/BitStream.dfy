/** Bit streams as numbers, first bit lowest: the fields the buffers of the codec engines hold. */
module BitStream {
  import opened Division
  import opened Zetas
  import opened Codecs
  import opened Packing
  import opened RejSample

  // n bits of the stream s from bit p
  function Slice(s: nat, p: nat, n: nat): nat {
    s / Two(p) % Two(n)
  }

  lemma SliceBound(s: nat, p: nat, n: nat)
    ensures Slice(s, p, n) < Two(n)
  {
    hide Two;
  }

  // x mod ab is x mod a and the next digit
  lemma DigitJoin(x: nat, a: nat, b: nat)
    requires a > 0 && b > 0
    ensures a * b > 0 && x % (a * b) == x % a + x / a % b * a
  {
    var q, r := x / a, x % a;
    assert q == q / b * b + q % b && x == q * a + r;
    DivDivParts(x, a, b, q, r, q / b, q % b);
  }

  lemma {:induction false} SliceJoin(s: nat, p: nat, m: nat, n: nat)
    ensures Slice(s, p, m + n) == Slice(s, p, m) + Slice(s, p + m, n) * Two(m)
  {
    hide Two;
    TwoProduct(p, m);
    TwoProduct(m, n);
    DivDiv(s, Two(p), Two(m));
    DigitJoin(s / Two(p), Two(m), Two(n));
  }

  // Taking m bits off the front
  lemma {:induction false} SliceDrop(s: nat, p: nat, m: nat, n: nat)
    ensures Slice(s, p, m + n) % Two(m) == Slice(s, p, m)
    ensures Slice(s, p, m + n) / Two(m) == Slice(s, p + m, n)
  {
    hide Two, Slice;
    SliceJoin(s, p, m, n);
    SliceBound(s, p, m);
    DivUnique(Slice(s, p, m + n), Two(m), Slice(s, p + m, n), Slice(s, p, m));
  }

  // A field inside a field
  lemma {:induction false} SliceInner(s: nat, p: nat, n: nat, a: nat, k: nat)
    requires a + k <= n
    ensures Slice(Slice(s, p, n), a, k) == Slice(s, p + a, k)
  {
    hide Two;
    SliceDrop(s, p, a, n - a);
    SliceDrop(s, p + a, k, n - a - k);
  }

  lemma {:induction false} SliceBytes(b: seq<Byte>, i: nat, n: nat)
    requires i + n <= |b|
    ensures Slice(ValueOf(b), 8 * i, 8 * n) == ValueOf(b[i..i + n])
  {
    hide Two, ValueOf;
    var low, mid, high := b[..i], b[i..i + n], b[i + n..];
    assert b == low + (mid + high);
    ValueAppend(low, mid + high);
    ValueAppend(mid, high);
    ValueBound(low);
    ValueBound(mid);
    DivUnique(ValueOf(b), Two(8 * i), ValueOf(mid + high), ValueOf(low));
    DivUnique(ValueOf(mid + high), Two(8 * n), ValueOf(high), ValueOf(mid));
  }

  lemma {:induction false} SliceByte(b: seq<Byte>, i: nat)
    requires i < |b|
    ensures Slice(ValueOf(b), 8 * i, 8) == b[i]
  {
    SliceBytes(b, i, 1);
    assert b[i..i + 1] == [b[i]];
    assert ValueOf([b[i]]) == b[i] by {
      assert [b[i]][1..] == [];
    }
  }

  lemma TwoOne()
    ensures Two(1) == 2
  {
    assert Two(0) == 1;
  }

  // ----- Fields of a ciphertext -----

  // Ten bits from bit 40 g + 10 k lie in bytes 5 g + k and 5 g + k + 1
  lemma {:induction false} TenBits(b: seq<Byte>, j: nat, k: nat, m: nat)
    requires j + 1 < |b| && k < 4 && m == 8 * j + 2 * k
    ensures Slice(ValueOf(b), m, 10) == Value10(b[j], b[j + 1], k)
  {
    hide Slice, Two, ValueOf;
    var s := ValueOf(b);
    SliceInner(s, 8 * j, 16, 2 * k, 10);
    SliceJoin(s, 8 * j, 8, 8);
    SliceByte(b, j);
    SliceByte(b, j + 1);
    TwoEight();
    FieldIs(b[j], b[j + 1], k);
  }

  lemma FieldIs(x: Byte, y: Byte, k: nat)
    requires k < 4
    ensures Slice(x + y * 256, 2 * k, 10) == Value10(x, y, k)
  {
    hide Two;
    SmallTwos();
    match k
    case 0 =>
    case 1 =>
    case 2 =>
    case _ =>
  }

  lemma SmallTwos()
    ensures Two(0) == 1 && Two(2) == 4 && Two(4) == 16 && Two(6) == 64 && Two(10) == 1024
  {
    assert Two(8) == 256;
  }

  lemma {:induction false} UCoefficient(ct: seq<Byte>, p: nat, c: nat)
    requires |ct| == 768 && p < 2 && c < 256
    ensures Slice(ValueOf(ct), 10 * (256 * p + c), 10) == Unpack10(ct[320 * p..320 * p + 320])[c]
  {
    hide Slice, ValueOf, Value10;
    var g, k := c / 4, c % 4;
    assert c == 4 * g + k;
    Unpack10At(ct[320 * p..320 * p + 320], g, k);
    TenBits(ct, 320 * p + 5 * g + k, k, 10 * (256 * p + c));
  }

  lemma {:induction false} VCoefficient(ct: seq<Byte>, j: nat)
    requires |ct| == 768 && j < 128
    ensures Slice(ValueOf(ct), 5120 + 8 * j, 4) == ct[640 + j] % 16
    ensures Slice(ValueOf(ct), 5120 + 8 * j + 4, 4) == ct[640 + j] / 16
  {
    hide Slice, ValueOf, Two;
    SliceByte(ct, 640 + j);
    SliceDrop(ValueOf(ct), 5120 + 8 * j, 4, 4);
    TwoFour();
  }

  lemma TwoFour()
    ensures Two(4) == 16
  {
  }
}
