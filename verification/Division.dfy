/** Facts about products, quotients and remainders that the other modules use by name. */
module Division {
  lemma MulNonNeg(x: int, y: int)
    requires x >= 0 && y >= 0
    ensures x * y >= 0
  {
  }

  lemma PositiveFactor(y: int, n: int)
    requires n > 0 && y * n > 0
    ensures y > 0
  {
    if y <= 0 {
      MulNonNeg(-y, n);
    }
  }

  lemma SmallMultiple(y: int, n: int)
    requires n > 0 && -n < y * n < n
    ensures y == 0
  {
    if y != 0 {
      MulNonNeg(if y > 0 then y - 1 else -y - 1, n);
    }
  }

  lemma DivUnique(a: int, n: int, q: int, r: int)
    requires n > 0 && a == q * n + r && 0 <= r < n
    ensures a / n == q && a % n == r
  {
    var d, m := a / n, a % n;
    assert a == d * n + m;
    assert (d - q) * n == d * n - q * n;
    SmallMultiple(d - q, n);
  }

  lemma DivBelow(x: int, n: int, e: int, h: int, r: int)
    requires n > 0 && x == h * n + r && 0 <= r < n && x < e * n
    ensures h < e && h * n <= e * n - n
  {
    assert (e - h) * n == e * n - h * n;
    PositiveFactor(e - h, n);
    MulNonNeg(e - h - 1, n);
    assert (e - h - 1) * n == (e - h) * n - n;
  }

  lemma NestedRemainder(s: nat, t: nat, r: nat, a: nat, b: nat)
    requires t < b && r < a
    ensures (s * b + t) * a + r == s * (a * b) + (t * a + r) && t * a + r < a * b
  {
    assert (s * b) * a == s * (a * b);
    assert (s * b + t) * a == (s * b) * a + t * a;
    MulNonNeg(b - 1 - t, a);
    assert (b - 1 - t) * a == a * b - a - t * a;
  }

  lemma DivDiv(n: nat, a: nat, b: nat)
    requires a > 0 && b > 0
    ensures n / (a * b) == n / a / b
  {
    var q, r := n / a, n % a;
    assert q == q / b * b + q % b && n == q * a + r;
    DivDivParts(n, a, b, q, r, q / b, q % b);
  }

  lemma DivDivParts(n: nat, a: nat, b: nat, q: nat, r: nat, s: nat, t: nat)
    requires n == q * a + r && r < a && q == s * b + t && t < b
    ensures a * b > 0 && n / (a * b) == s && n % (a * b) == t * a + r
  {
    NestedRemainder(s, t, r, a, b);
    MulNonNeg(t, a);
    MulNonNeg(a - 1, b);
    assert (a - 1) * b == a * b - b;
    DivUnique(n, a * b, s, t * a + r);
  }

  lemma DivAdd(n: nat, w: nat, d: nat)
    requires d > 0
    ensures (n + w * d) / d == n / d + w && (n + w * d) % d == n % d
  {
    assert n + w * d == (n / d + w) * d + n % d;
    DivUnique(n + w * d, d, n / d + w, n % d);
  }

  lemma SmallRemainder(x: nat, m: nat)
    requires x < m
    ensures x % m == x
  {
  }
}
