/** The centred binomial samplers of kyber/ref/cbd.c: the bit-parallel sums of cbd2 and cbd3 are the
    digit-by-digit counts of SamplePolyCBD (Algorithm 8 of FIPS 203). */
module Cbd {
  import opened Division
  import opened ModQ
  import opened Ring
  import opened Zetas
  import opened NttImpl
  import opened Codecs
  import opened RejSample
  import opened BitStream

  // ----- Algorithm 8 -----

  // The number of ones among the n bits of s from bit p
  function Ones(s: nat, p: nat, n: nat): (r: nat)
    ensures r <= n
  {
    hide Two;
    if n == 0 then 0 else Ones(s, p, n - 1) + Slice(s, p + n - 1, 1) % 2
  }

  function CbdCoeff(s: nat, eta: nat, k: nat): (r: int)
    ensures -(eta as int) <= r <= eta
  {
    Ones(s, 2 * eta * k, eta) - Ones(s, 2 * eta * k + eta, eta)
  }

  function CbdPoly(b: seq<Byte>, eta: nat): (r: Poly)
    ensures |r| == 256 && Bounded(r, eta)
  {
    seq(256, k requires 0 <= k < 256 => CbdCoeff(ValueOf(b), eta, k))
  }

  lemma {:induction false} OnesInside(s: nat, p: nat, n: nat, a: nat, k: nat)
    requires a + k <= n
    ensures Ones(Slice(s, p, n), a, k) == Ones(s, p + a, k)
  {
    hide Slice;
    if k > 0 {
      OnesInside(s, p, n, a, k - 1);
      SliceInner(s, p, n, a + k - 1, 1);
    }
  }

  // x >> k
  function Shr(x: nat, k: nat): nat {
    hide Two;
    x / Two(k)
  }

  // x << k
  function Shl(x: nat, k: nat): nat {
    hide Two;
    MulNonNeg(x, Two(k));
    x * Two(k)
  }

  lemma ShlAdd(x: nat, y: nat, k: nat)
    ensures Shl(x + y, k) == Shl(x, k) + Shl(y, k)
  {
    hide Two;
  }

  lemma ShrShr(x: nat, a: nat, b: nat)
    ensures Shr(Shr(x, a), b) == Shr(x, a + b)
  {
    hide Two;
    TwoProduct(a, b);
    DivDiv(x, Two(a), Two(b));
  }

  lemma {:induction false} OnesShift(s: nat, m: nat, p: nat, k: nat)
    ensures Ones(Shr(s, m), p, k) == Ones(s, m + p, k)
  {
    hide Two, Shr;
    if k > 0 {
      OnesShift(s, m, p, k - 1);
      ShrShr(s, m, p + k - 1);
      BitIs(s, m + (p + k - 1));
      BitIs(Shr(s, m), p + k - 1);
    }
  }

  lemma BitIs(t: nat, p: nat)
    ensures Slice(t, p, 1) == Shr(t, p) % 2
  {
    hide Two;
    TwoOne();
  }

  // ----- Bitwise and -----

  function And(x: nat, y: nat): nat
    decreases y
  {
    if x == 0 || y == 0 then 0 else x % 2 * (y % 2) + 2 * And(x / 2, y / 2)
  }

  lemma AndDouble(x: nat, y: nat)
    ensures And(x, 2 * y) == 2 * And(x / 2, y)
  {
    if x == 0 {
      assert And(x, 2 * y) == 0 && And(x / 2, y) == 0;
    } else if y > 0 {
      assert 2 * y % 2 == 0 && 2 * y / 2 == y;
    }
  }

  lemma {:induction false} AndShift(x: nat, y: nat, k: nat)
    ensures And(x, Shl(y, k)) == Shl(And(Shr(x, k), y), k)
  {
    hide And, Shr, Shl;
    if k == 0 {
      ShiftZero(x);
      ShiftZero(y);
      ShiftZero(And(x, y));
    } else {
      AndShift(x / 2, y, k - 1);
      HalfMore(x, k);
      ShlMore(y, k);
      ShlMore(And(Shr(x, k), y), k);
      AndDouble(x, Shl(y, k - 1));
    }
  }

  lemma ShiftZero(x: nat)
    ensures Shr(x, 0) == x && Shl(x, 0) == x
  {
    assert Two(0) == 1;
  }

  lemma ShlMore(x: nat, k: nat)
    requires k > 0
    ensures Shl(x, k) == 2 * Shl(x, k - 1)
  {
    assert x * (2 * Two(k - 1)) == 2 * (x * Two(k - 1));
  }

  lemma HalfMore(x: nat, k: nat)
    requires k > 0
    ensures Shr(x / 2, k - 1) == Shr(x, k)
  {
    DivDiv(x, 2, Two(k - 1));
  }

  lemma AndOdd(x: nat, y: nat)
    ensures And(x, 1 + 2 * y) == x % 2 + 2 * And(x / 2, y)
  {
    assert (1 + 2 * y) % 2 == 1 && (1 + 2 * y) / 2 == y;
  }

  // n ones, eta bits apart: 0x55555555 and 0x00249249
  function Mask(eta: nat, n: nat): nat {
    if n == 0 then 0 else 1 + Shl(Mask(eta, n - 1), eta)
  }

  lemma Masks()
    ensures Mask(2, 16) == 0x5555_5555 && Mask(3, 8) == 0x0024_9249
  {
    assert Two(2) == 4 && Two(3) == 8;
    assert Mask(2, 4) == 0x55 && Mask(3, 4) == 0x249;
    assert Mask(2, 8) == 0x5555 && Mask(2, 12) == 0x55_5555;
  }

  lemma {:induction false} AndMask(x: nat, eta: nat, n: nat)
    requires eta > 0 && n > 0
    ensures And(x, Mask(eta, n)) == x % 2 + Shl(And(Shr(x, eta), Mask(eta, n - 1)), eta)
  {
    hide And, Shr, Shl;
    var m := Mask(eta, n - 1);
    HalfMore(x, eta);
    ShlMore(m, eta);
    ShlMore(And(Shr(x, eta), m), eta);
    AndOdd(x, Shl(m, eta - 1));
    AndShift(x / 2, m, eta - 1);
  }

  // ----- The bit-parallel sum -----

  // (t & mask) + (t >> 1 & mask) + ..., c terms
  function Sum(t: nat, eta: nat, n: nat, c: nat): nat {
    if c == 0 then 0 else Sum(t, eta, n, c - 1) + And(Shr(t, c - 1), Mask(eta, n))
  }

  // Its lowest digit counts the first bits, the rest is the sum of the remaining bits
  lemma {:induction false} SumDigit(t: nat, eta: nat, n: nat, c: nat)
    requires eta > 0 && n > 0
    ensures Sum(t, eta, n, c) == Ones(t, 0, c) + Shl(Sum(Shr(t, eta), eta, n - 1, c), eta)
  {
    hide And, Mask, Shr, Shl, Slice, Two;
    if c == 0 {
      ShlNone(eta);
    } else {
      SumDigit(t, eta, n, c - 1);
      AndMask(Shr(t, c - 1), eta, n);
      ShrShr(t, c - 1, eta);
      ShrShr(t, eta, c - 1);
      BitIs(t, c - 1);
      ShlAdd(Sum(Shr(t, eta), eta, n - 1, c - 1), And(Shr(Shr(t, eta), c - 1), Mask(eta, n - 1)), eta);
    }
  }

  lemma ShlNone(k: nat)
    ensures Shl(0, k) == 0
  {
  }

  lemma {:induction false} SumBound(t: nat, eta: nat, n: nat)
    requires eta == 2 || eta == 3
    ensures Sum(t, eta, n, eta) < if eta == 2 then Two(2 * n) else Two(3 * n)
    decreases n
  {
    hide Two, Sum, Ones, Shl, Shr;
    if n == 0 {
      SumZero(t, eta, eta);
      TwoZero();
    } else {
      SumDigit(t, eta, n, eta);
      SumBound(Shr(t, eta), eta, n - 1);
      EtaBelow(eta);
      ShlBelow(Sum(Shr(t, eta), eta, n - 1, eta), if eta == 2 then 2 * (n - 1) else 3 * (n - 1), eta);
    }
  }

  lemma ShlBelow(x: nat, a: nat, b: nat)
    requires x < Two(a)
    ensures Shl(x, b) + Two(b) <= Two(b + a)
  {
    hide Two;
    TwoProduct(b, a);
    MulNonNeg(Two(a) - 1 - x, Two(b));
    assert (Two(a) - 1 - x) * Two(b) == Two(b) * Two(a) - Two(b) - x * Two(b);
  }

  lemma SumZero(t: nat, eta: nat, c: nat)
    ensures Sum(t, eta, 0, c) == 0
  {
  }

  lemma EtaBelow(eta: nat)
    requires 1 < eta <= 3
    ensures eta < Two(eta)
  {
    assert Two(2) == 4 && Two(3) == 8;
  }

  lemma TopDigit(x: nat, r: nat, k: nat)
    requires r < Two(k)
    ensures Shr(r + Shl(x, k), k) == x && (r + Shl(x, k)) % Two(k) == r
  {
    hide Two;
    DivUnique(r + Shl(x, k), Two(k), x, r);
  }

  // Digit k of the sum is the number of ones among bits eta k .. eta k + eta
  lemma {:induction false} SumField(t: nat, eta: nat, n: nat, k: nat)
    requires 1 < eta <= 3 && k < n
    ensures Shr(Sum(t, eta, n, eta), eta * k) % Two(eta) == Ones(t, eta * k, eta)
    decreases k
  {
    hide Two, Sum, Ones, Shl, Shr;
    SumDigit(t, eta, n, eta);
    EtaBelow(eta);
    var rest := Sum(Shr(t, eta), eta, n - 1, eta);
    TopDigit(rest, Ones(t, 0, eta), eta);
    if k == 0 {
      assert eta * k == 0;
      ShiftZero(Sum(t, eta, n, eta));
    } else {
      SumField(Shr(t, eta), eta, n - 1, k - 1);
      OnesShift(t, eta, eta * (k - 1), eta);
      assert eta * k == eta + eta * (k - 1);
      ShrShr(Sum(t, eta, n, eta), eta, eta * (k - 1));
    }
  }

  // ----- cbd2 and cbd3 -----

  // load24_littleendian and load32_littleendian
  function Load24(x0: Byte, x1: Byte, x2: Byte): nat {
    x0 + 256 * x1 + 65536 * x2
  }

  function Load32(x0: Byte, x1: Byte, x2: Byte, x3: Byte): nat {
    x0 + 256 * x1 + 65536 * x2 + 16777216 * x3
  }

  lemma Loads(b: seq<Byte>)
    ensures |b| == 3 ==> ValueOf(b) == Load24(b[0], b[1], b[2])
    ensures |b| == 4 ==> ValueOf(b) == Load32(b[0], b[1], b[2], b[3])
  {
    if |b| == 3 || |b| == 4 {
      assert b[1..][1..] == b[2..] && b[2..][1..] == b[3..];
      assert ValueOf(b[1..]) == b[1] + 256 * ValueOf(b[2..]) && ValueOf(b[2..]) == b[2] + 256 * ValueOf(b[3..]);
      if |b| == 4 {
        assert b[3..][1..] == [];
      }
    }
  }

  // Coefficient k comes from fields 2 j and 2 j + 1 of the group at byte o
  lemma {:induction false} Group(b: seq<Byte>, eta: nat, o: nat, bytes: nat, n: nat, j: nat, k: nat)
    requires (eta == 2 && 8 * bytes == 2 * n && 8 * o + 4 * j == 4 * k)
          || (eta == 3 && 8 * bytes == 3 * n && 8 * o + 6 * j == 6 * k)
    requires 2 * j + 1 < n && o + bytes <= |b|
    ensures var d := Sum(ValueOf(b[o..o + bytes]), eta, n, eta);
      Shr(d, eta * (2 * j)) % Two(eta) - Shr(d, eta * (2 * j + 1)) % Two(eta) == CbdCoeff(ValueOf(b), eta, k)
  {
    hide Two, Sum, Ones, ValueOf, Slice, Shr;
    var s, t := ValueOf(b), ValueOf(b[o..o + bytes]);
    SliceBytes(b, o, bytes);
    SumField(t, eta, n, 2 * j);
    SumField(t, eta, n, 2 * j + 1);
    assert 2 * eta * k == 8 * o + eta * (2 * j) && 2 * eta * k + eta == 8 * o + eta * (2 * j + 1);
    assert eta * (2 * j + 1) + eta <= 8 * bytes;
    OnesInside(s, 8 * o, 8 * bytes, eta * (2 * j), eta);
    OnesInside(s, 8 * o, 8 * bytes, eta * (2 * j + 1), eta);
  }

  // The sum of the code, for eta 2 and eta 3
  lemma {:induction false} Sums(t: nat)
    ensures And(t, 0x5555_5555) + And(t / 2, 0x5555_5555) == Sum(t, 2, 16, 2) < 0x1_0000_0000
    ensures And(t, 0x0024_9249) + And(t / 2, 0x0024_9249) + And(t / 4, 0x0024_9249) == Sum(t, 3, 8, 3) < 0x1_0000_0000
  {
    hide And, Mask;
    Masks();
    assert Two(0) == 1 && Two(1) == 2 && Two(2) == 4;
    assert Sum(t, 2, 16, 1) == And(t, Mask(2, 16)) && Sum(t, 3, 8, 1) == And(t, Mask(3, 8));
    assert Sum(t, 3, 8, 2) == And(t, Mask(3, 8)) + And(t / 2, Mask(3, 8));
    SumBound(t, 2, 16);
    SumBound(t, 3, 8);
    TwoThirtyTwo();
  }

  lemma TwoThirtyTwo()
    ensures Two(32) == 0x1_0000_0000 && Two(24) < Two(32)
  {
    assert Two(8) == 256;
    hide Two;
    TwoProduct(8, 8);
    TwoProduct(16, 8);
    TwoProduct(16, 16);
  }

  // The 32-bit sum over the group of bytes at 4 i, and over that at 3 i
  lemma Sum2(b: seq<Byte>, i: nat)
    requires |b| == 128 && i < 32
    ensures var t := Load32(b[4 * i], b[4 * i + 1], b[4 * i + 2], b[4 * i + 3]);
      U32(U32(And(t, 0x5555_5555)) + And(t / 2, 0x5555_5555)) == Sum(ValueOf(b[4 * i..4 * i + 4]), 2, 16, 2)
  {
    hide And, Sum, ValueOf;
    Loads(b[4 * i..4 * i + 4]);
    var t := Load32(b[4 * i], b[4 * i + 1], b[4 * i + 2], b[4 * i + 3]);
    Sums(t);
    NoWrap(And(t, 0x5555_5555), And(t / 2, 0x5555_5555));
  }

  lemma Sum3(b: seq<Byte>, i: nat)
    requires |b| == 192 && i < 64
    ensures var t := Load24(b[3 * i], b[3 * i + 1], b[3 * i + 2]);
      U32(U32(U32(And(t, 0x0024_9249)) + And(t / 2, 0x0024_9249)) + And(t / 4, 0x0024_9249))
      == Sum(ValueOf(b[3 * i..3 * i + 3]), 3, 8, 3)
  {
    hide And, Sum, ValueOf;
    Loads(b[3 * i..3 * i + 3]);
    var t := Load24(b[3 * i], b[3 * i + 1], b[3 * i + 2]);
    Sums(t);
    NoWrap(And(t, 0x0024_9249), And(t / 2, 0x0024_9249));
    NoWrap(And(t, 0x0024_9249) + And(t / 2, 0x0024_9249), And(t / 4, 0x0024_9249));
  }

  lemma NoWrap(x: nat, y: nat)
    requires x + y < 0x1_0000_0000
    ensures U32(x) == x && U32(U32(x) + y) == x + y
  {
  }

  method Cbd2(r: array<int>, buf: array<Byte>)
    requires r.Length == 256 && buf.Length == 128
    modifies r
    ensures r[..] == CbdPoly(buf[..], 2)
  {
    hide And, Sum, CbdPoly, CbdCoeff, ValueOf, Two, Slice, Shr, U32, I16, Load24, Load32;
    ghost var c := CbdPoly(buf[..], 2);
    for i := 0 to 32
      invariant forall p :: 0 <= p < 8 * i ==> r[p] == c[p]
    {
      var t := Load32(buf[4 * i], buf[4 * i + 1], buf[4 * i + 2], buf[4 * i + 3]);
      Sum2(buf[..], i);
      assert buf[..][4 * i..4 * i + 4] == buf[4 * i..4 * i + 4];
      var d := U32(And(t, 0x5555_5555));
      d := U32(d + And(t / 2, 0x5555_5555));
      for j := 0 to 8
        invariant forall p :: 0 <= p < 8 * i + j ==> r[p] == c[p]
      {
        var a := Shr(d, 4 * j) % 4;
        var b := Shr(d, 4 * j + 2) % 4;
        Coefficient2(buf[..], i, j, d);
        r[8 * i + j] := I16(a - b);
      }
    }
    assert r[..] == c;
  }

  lemma Coefficient2(b: seq<Byte>, i: nat, j: nat, d: nat)
    requires |b| == 128 && i < 32 && j < 8 && d == Sum(ValueOf(b[4 * i..4 * i + 4]), 2, 16, 2)
    ensures CbdPoly(b, 2)[8 * i + j] == I16(Shr(d, 4 * j) % 4 - Shr(d, 4 * j + 2) % 4)
  {
    hide Sum, CbdCoeff, ValueOf, Two, Shr;
    Group(b, 2, 4 * i, 4, 16, j, 8 * i + j);
    assert Two(2) == 4 by { TwoTwoThree(); }
  }

  lemma TwoTwoThree()
    ensures Two(2) == 4 && Two(3) == 8
  {
  }

  method Cbd3(r: array<int>, buf: array<Byte>)
    requires r.Length == 256 && buf.Length == 192
    modifies r
    ensures r[..] == CbdPoly(buf[..], 3)
  {
    hide And, Sum, CbdPoly, CbdCoeff, ValueOf, Two, Slice, Shr, U32, I16, Load24, Load32;
    ghost var c := CbdPoly(buf[..], 3);
    for i := 0 to 64
      invariant forall p :: 0 <= p < 4 * i ==> r[p] == c[p]
    {
      var t := Load24(buf[3 * i], buf[3 * i + 1], buf[3 * i + 2]);
      Sum3(buf[..], i);
      assert buf[..][3 * i..3 * i + 3] == buf[3 * i..3 * i + 3];
      var d := U32(And(t, 0x0024_9249));
      d := U32(d + And(t / 2, 0x0024_9249));
      d := U32(d + And(t / 4, 0x0024_9249));
      for j := 0 to 4
        invariant forall p :: 0 <= p < 4 * i + j ==> r[p] == c[p]
      {
        var a := Shr(d, 6 * j) % 8;
        var b := Shr(d, 6 * j + 3) % 8;
        Coefficient3(buf[..], i, j, d);
        r[4 * i + j] := I16(a - b);
      }
    }
    assert r[..] == c;
  }

  lemma Coefficient3(b: seq<Byte>, i: nat, j: nat, d: nat)
    requires |b| == 192 && i < 64 && j < 4 && d == Sum(ValueOf(b[3 * i..3 * i + 3]), 3, 8, 3)
    ensures CbdPoly(b, 3)[4 * i + j] == I16(Shr(d, 6 * j) % 8 - Shr(d, 6 * j + 3) % 8)
  {
    hide Sum, CbdCoeff, ValueOf, Two, Shr;
    Group(b, 3, 3 * i, 3, 8, j, 4 * i + j);
    assert Two(3) == 8 by { TwoTwoThree(); }
  }
}
