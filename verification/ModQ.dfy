/** Arithmetic modulo q = 3329 in C integer types: wrap-around to 16 and 32 bits,
    Montgomery and Barrett reduction as kyber/ref/reduce.c writes them. */
module ModQ {

  const Q: int := 3329
  const QINV: int := -3327        // q^-1 mod 2^16

  // ----- Congruence modulo q -----

  ghost predicate Cong(a: int, b: int) {
    (a - b) % Q == 0
  }

  ghost function CongQuotient(a: int, b: int): (k: int)
    requires Cong(a, b)
    ensures a == b + Q * k
  {
    (a - b) / Q
  }

  lemma CongIntro(a: int, b: int, k: int)
    requires a == b + Q * k
    ensures Cong(a, b)
  {
  }

  lemma CongRefl(a: int)
    ensures Cong(a, a)
  {
  }

  lemma CongSym(a: int, b: int)
    requires Cong(a, b)
    ensures Cong(b, a)
  {
    var k := CongQuotient(a, b);
    CongIntro(b, a, -k);
  }

  lemma CongTrans(a: int, b: int, c: int)
    requires Cong(a, b) && Cong(b, c)
    ensures Cong(a, c)
  {
    var k, m := CongQuotient(a, b), CongQuotient(b, c);
    CongIntro(a, c, k + m);
  }

  lemma CongAdd(a: int, b: int, c: int, d: int)
    requires Cong(a, b) && Cong(c, d)
    ensures Cong(a + c, b + d) && Cong(a - c, b - d)
  {
    var k, m := CongQuotient(a, b), CongQuotient(c, d);
    CongIntro(a + c, b + d, k + m);
    CongIntro(a - c, b - d, k - m);
  }

  lemma CongMul(a: int, b: int, c: int, d: int)
    requires Cong(a, b) && Cong(c, d)
    ensures Cong(a * c, b * d)
  {
    var k, m := CongQuotient(a, b), CongQuotient(c, d);
    var n := b * m + k * d + Q * (k * m);
    calc {
      a * c;
      (b + Q * k) * (d + Q * m);
      b * d + b * (Q * m) + (Q * k) * d + (Q * k) * (Q * m);
      { assert b * (Q * m) == Q * (b * m); assert (Q * k) * d == Q * (k * d);
        assert (Q * k) * (Q * m) == Q * (Q * (k * m)); }
      b * d + Q * (b * m) + Q * (k * d) + Q * (Q * (k * m));
      b * d + Q * n;
    }
    CongIntro(a * c, b * d, n);
  }

  // q is coprime to 2^16: a Montgomery factor can be cancelled
  lemma CongCancelMont(a: int, b: int)
    requires Cong(a * 65536, b * 65536)
    ensures Cong(a, b)
  {
    var k := CongQuotient(a * 65536, b * 65536);
    // 169 * 65536 == 1 + 3327 * q
    CongIntro(a, b, 169 * k - 3327 * (a - b));
  }

  // Two representatives in the same window of q integers are equal
  lemma CongUnique(a: int, b: int)
    requires Cong(a, b) && -Q < a - b < Q
    ensures a == b
  {
  }

  // ----- C integer conversions (two's complement, width made explicit) -----

  function I16(x: int): (r: int)
    ensures -32768 <= r < 32768
    ensures (r - x) % 65536 == 0
    ensures -32768 <= x < 32768 ==> r == x
  {
    (x + 32768) % 65536 - 32768
  }

  ghost function I16Quotient(x: int): (k: int)
    ensures I16(x) == x + 65536 * k
  {
    -((x + 32768) / 65536)
  }

  function U32(x: int): (r: int)
    ensures 0 <= r < 0x1_0000_0000
    ensures (r - x) % 0x1_0000_0000 == 0
    ensures 0 <= x < 0x1_0000_0000 ==> r == x
  {
    x % 0x1_0000_0000
  }

  predicate Fits16(x: int) {
    -32768 <= x < 32768
  }

  predicate Fits32(x: int) {
    -0x8000_0000 <= x < 0x8000_0000
  }

  // ----- reduce.c -----

  // QINV * q == 1 - 169 * 65536
  lemma QinvCancels(a: int, lo: int, t: int, k1: int, k2: int)
    requires lo == a + 65536 * k1 && t == lo * QINV + 65536 * k2
    ensures (a - t * Q) % 65536 == 0
  {
    assert a - t * Q == 65536 * (169 * lo - k1 - k2 * Q);
  }

  // (int16_t)a * QINV is stored back into an int16_t
  function MontFactor(a: int): (t: int)
    ensures Fits16(t)
    ensures (a - t * Q) % 65536 == 0
  {
    var lo := I16(a);
    var t := I16(lo * QINV);
    QinvCancels(a, lo, t, I16Quotient(a), I16Quotient(lo * QINV));
    t
  }

  // The range montgomery_reduce is specified for
  predicate MontRange(a: int) {
    -Q * 32768 <= a < Q * 32768
  }

  function MontgomeryReduce(a: int): (r: int)
    ensures Fits16(r)
    ensures MontRange(a) ==> -Q < r < Q && Cong(r * 65536, a)
  {
    var t := MontFactor(a);
    var r := I16((a - t * Q) / 65536);
    assert MontRange(a) ==> Cong(r * 65536, a) by {
      if MontRange(a) {
        assert Fits32(a - t * Q) && r == (a - t * Q) / 65536;
        CongIntro(r * 65536, a, -t);
      }
    }
    r
  }

  const BARRETT_V: int := 20159   // ((1<<26) + q/2) / q

  function BarrettReduce(a: int): (r: int)
    requires Fits16(a)
    ensures -1664 <= r <= 1664
    ensures Cong(r, a)
  {
    var t := (BARRETT_V * a + 0x200_0000) / 0x400_0000;
    assert -10 <= t <= 10;
    var r := I16(a - I16(t * Q));
    assert -1664 <= a - t * Q <= 1664;
    CongIntro(r, a, -t);
    r
  }

  // Multiplication followed by Montgomery reduction
  function Fqmul(a: int, b: int): (r: int)
    ensures Fits16(r)
    ensures MontRange(a * b) ==> -Q < r < Q && Cong(r * 65536, a * b)
  {
    MontgomeryReduce(a * b)
  }

  // The centred representative, which BarrettReduce computes
  function Centred(x: int): (r: int)
    ensures -1664 <= r <= 1664
    ensures Cong(r, x)
  {
    var m := x % Q;
    if m <= 1664 then m else m - Q
  }

  lemma BarrettIsCentred(a: int)
    requires Fits16(a)
    ensures BarrettReduce(a) == Centred(a)
  {
    CongSym(Centred(a), a);
    CongTrans(BarrettReduce(a), a, Centred(a));
    CongUnique(BarrettReduce(a), Centred(a));
  }

  lemma CentredCong(a: int, b: int)
    requires Cong(a, b)
    ensures Centred(a) == Centred(b)
  {
    CongSym(Centred(b), b);
    CongTrans(Centred(a), a, b);
    CongTrans(Centred(a), b, Centred(b));
    CongUnique(Centred(a), Centred(b));
  }
}
