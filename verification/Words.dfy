/** The numbers 32-bit words stand for: unsigned and two's-complement values, and sums, differences, comparisons,
    shifts and masks of words in terms of them. */
module Words {
  import opened Division

  type Word = bv32

  const MODULUS: nat := 0x1_0000_0000
  const HALF: nat := 0x8000_0000
  const TOP: Word := 0xFFFF_FFFF

  // The number whose binary digits are the bits of x
  function U(x: Word): nat
    decreases x
  {
    if x == 0 then 0 else 2 * U(x >> 1) + if x & 1 != 0 then 1 else 0
  }

  lemma EvenNext(x: Word)
    requires x & 1 == 0
    ensures (x + 1) >> 1 == x >> 1 && (x + 1) & 1 != 0
  {
  }

  lemma OddNext(x: Word)
    requires x & 1 != 0 && x != TOP
    ensures (x + 1) >> 1 == (x >> 1) + 1 && (x + 1) & 1 == 0 && x >> 1 < x && x >> 1 != TOP
  {
  }

  lemma UnfoldU(x: Word)
    ensures U(x) == 2 * U(x >> 1) + if x & 1 != 0 then 1 else 0
  {
  }

  // x is y with one more digit
  predicate Grown(x: Word, y: Word, one: bool) {
    x >> 1 == y && (x & 1 != 0 <==> one)
  }

  lemma GrownU(x: Word, y: Word, one: bool)
    requires Grown(x, y, one)
    ensures U(x) == 2 * U(y) + if one then 1 else 0
  {
  }

  lemma GrowEven(x: Word)
    requires x & 1 == 0
    ensures Grown(x, x >> 1, false) && Grown(x + 1, x >> 1, true)
  {
    EvenNext(x);
  }

  lemma GrowOdd(x: Word)
    requires x & 1 != 0 && x != TOP
    ensures Grown(x, x >> 1, true) && Grown(x + 1, (x >> 1) + 1, false) && x >> 1 < x && x >> 1 != TOP
  {
    OddNext(x);
  }

  // How the successor of x grows out of y
  predicate Follows(x: Word, y: Word, one: bool) {
    && Grown(x, y, one) && (!one ==> Grown(x + 1, y, true))
    && (one && x != TOP ==> Grown(x + 1, y + 1, false) && y < x && y != TOP)
  }

  lemma FollowsEven(x: Word)
    requires x & 1 == 0
    ensures Follows(x, x >> 1, false)
  {
    GrowEven(x);
  }

  lemma FollowsOdd(x: Word)
    requires x & 1 != 0
    ensures Follows(x, x >> 1, true)
  {
    if x != TOP {
      GrowOdd(x);
    }
  }

  lemma Grow(x: Word) returns (y: Word, one: bool)
    ensures Follows(x, y, one)
  {
    hide Follows;
    if x & 1 == 0 {
      y, one := x >> 1, false;
      FollowsEven(x);
    } else {
      y, one := x >> 1, true;
      FollowsOdd(x);
    }
  }

  lemma {:induction false} Succ(x: Word)
    requires x != TOP
    ensures U(x + 1) == U(x) + 1
    decreases x
  {
    hide U, Grown;
    var y, one := Grow(x);
    GrownU(x, y, one);
    if one {
      GrownU(x + 1, y + 1, false);
      Succ(y);
    } else {
      GrownU(x + 1, y, true);
    }
  }

  predicate Adds(a: Word, b: Word) {
    U(a + b) == (U(a) + U(b)) % MODULUS
  }

  lemma AddsNext(a: Word, b: Word)
    requires Adds(a, b)
    ensures Adds(a, b + 1)
  {
    hide U;
    SuccAll(a + b);
    SuccAll(b);
    assert a + (b + 1) == (a + b) + 1;
  }

  lemma AddsNone(a: Word)
    ensures Adds(a, 0)
  {
    hide U;
    ZeroU();
    RangeU(a);
  }

  lemma {:induction false} AllAdd(a: Word, b: Word)
    ensures Adds(a, b)
    decreases b
  {
    hide Adds;
    if b == 0 {
      AddsNone(a);
    } else {
      var c := Pred(b);
      AllAdd(a, c);
      AddsNext(a, c);
    }
  }

  lemma AddU(a: Word, b: Word)
    ensures U(a + b) == (U(a) + U(b)) % MODULUS
  {
    AllAdd(a, b);
  }

  lemma Pred(b: Word) returns (c: Word)
    requires b != 0
    ensures c < b && c + 1 == b
  {
    c := b - 1;
    assert c + 1 == b;
  }
  lemma ZeroU()
    ensures U(0) == 0
  {}
  lemma {:induction false} RangeU(x: Word)
    ensures U(x) < MODULUS
    decreases TOP - x
  {
    hide U;
    if x == TOP {
      TopU();
    } else {
      Up(x);
      RangeU(x + 1);
      Succ(x);
    }
  }
  lemma Up(x: Word)
    requires x != TOP
    ensures TOP - (x + 1) < TOP - x
  {}
  lemma TopU()
    ensures U(TOP) == MODULUS - 1 && U(0x8000_0000) == HALF
  {
    hide U;
    ZeroU();
    One(0); One(1); One(3); One(7); One(0xF); One(0x1F);
    One(0x3F); One(0x7F); One(0xFF); One(0x1FF); One(0x3FF); One(0x7FF);
    One(0xFFF); One(0x1FFF); One(0x3FFF); One(0x7FFF); One(0xFFFF); One(0x1FFFF);
    One(0x3FFFF); One(0x7FFFF); One(0xFFFFF); One(0x1FFFFF); One(0x3FFFFF); One(0x7FFFFF);
    One(0xFFFFFF); One(0x1FFFFFF); One(0x3FFFFFF); One(0x7FFFFFF); One(0xFFFFFFF); One(0x1FFFFFFF);
    One(0x3FFFFFFF); One(0x7FFFFFFF);
    Succ(0x7FFF_FFFF);
  }

  lemma SuccAll(x: Word)
    ensures U(x + 1) == (U(x) + 1) % MODULUS
  {
    hide U;
    if x == TOP {
      TopU();
      ZeroU();
    } else {
      Succ(x);
      RangeU(x + 1);
    }
  }

  lemma One(x: Word)
    requires x < 0x8000_0000
    ensures U(2 * x + 1) == 2 * U(x) + 1
  {
    assert (2 * x + 1) >> 1 == x;
    assert (2 * x + 1) & 1 != 0;
  }

  // ----- The word of a number -----

  function Append(x: Word, one: bool): Word {
    2 * x + if one then 1 else 0
  }

  // The low 32 binary digits of n
  function W(n: nat): Word {
    if n == 0 then 0 else Append(W(n / 2), n % 2 == 1)
  }

  function OfInt(n: int): Word {
    W(n % MODULUS)
  }

  lemma Regrown(x: Word)
    ensures x == Append(x >> 1, x & 1 != 0)
  {
    if x & 1 != 0 {
    } else {
    }
  }

  lemma WDigit(n: nat, one: bool)
    ensures W(2 * n + if one then 1 else 0) == Append(W(n), one)
  {
  }

  lemma {:induction false} WU(x: Word)
    ensures W(U(x)) == x
    decreases x
  {
    hide W, Append;
    if x == 0 {
      WZero();
    } else {
      Shrinks(x);
      WU(x >> 1);
      WDigit(U(x >> 1), x & 1 != 0);
      Regrown(x);
    }
  }

  lemma WZero()
    ensures W(0) == 0
  {
  }

  lemma Shrinks(x: Word)
    requires x != 0
    ensures x >> 1 < x
  {
  }

  // The only word whose number is n modulo 2^32
  lemma OfIntIs(n: int, x: Word)
    requires U(x) == n % MODULUS
    ensures OfInt(n) == x
  {
    WU(x);
  }

  lemma SameU(a: Word, b: Word)
    requires U(a) == U(b)
    ensures a == b
  {
    WU(a);
    WU(b);
  }

  // ----- Order -----

  predicate Less(a: Word, b: Word) {
    a < b
  }

  lemma Digits(x: Word) returns (y: Word, one: bool)
    ensures Grown(x, y, one)
  {
    y, one := x >> 1, x & 1 != 0;
  }

  lemma UpperLess(a: Word, b: Word, p: Word, q: Word, r: bool, t: bool)
    requires Grown(a, p, r) && Grown(b, q, t) && Less(p, q)
    ensures Less(a, b)
  {
  }

  lemma DigitLess(a: Word, b: Word, p: Word)
    requires Grown(a, p, false) && Grown(b, p, true)
    ensures Less(a, b)
  {
  }

  lemma Asymmetric(a: Word, b: Word)
    requires Less(a, b)
    ensures !Less(b, a)
  {
  }

  lemma {:induction false} Smaller(a: Word, b: Word)
    requires U(a) < U(b)
    ensures Less(a, b)
    decreases U(b)
  {
    hide U, Less, Grown;
    var p, r := Digits(a);
    var q, t := Digits(b);
    GrownU(a, p, r);
    GrownU(b, q, t);
    if U(p) < U(q) {
      Smaller(p, q);
      UpperLess(a, b, p, q, r, t);
    } else {
      SameU(p, q);
      DigitLess(a, b, p);
    }
  }

  lemma LessIff(a: Word, b: Word)
    ensures Less(a, b) <==> U(a) < U(b)
    ensures a == b <==> U(a) == U(b)
  {
    hide U, Less;
    if U(a) < U(b) {
      Smaller(a, b);
    } else if U(a) == U(b) {
      SameU(a, b);
      Irreflexive(a);
    } else {
      Smaller(b, a);
      Asymmetric(b, a);
    }
  }

  lemma Irreflexive(a: Word)
    ensures !Less(a, a)
  {
  }

  lemma LessU(a: Word, b: Word)
    ensures a < b <==> U(a) < U(b)
    ensures a == b <==> U(a) == U(b)
  {
    hide U;
    LessIff(a, b);
  }

  // ----- Two's complement -----

  predicate Negative(x: Word) {
    x & 0x8000_0000 != 0
  }

  function S(x: Word): int {
    if Negative(x) then U(x) - MODULUS else U(x)
  }

  lemma NegativeIs(x: Word)
    ensures Negative(x) <==> U(x) >= HALF
  {
    hide U;
    TopU();
    LessU(x, 0x8000_0000);
    NegativeBits(x);
  }

  lemma NegativeBits(x: Word)
    ensures x & 0x8000_0000 != 0 <==> !(x < 0x8000_0000)
  {
  }

  lemma SRange(x: Word)
    ensures -0x8000_0000 <= S(x) < HALF && (S(x) - U(x)) % MODULUS == 0 && (S(x) < 0 <==> Negative(x))
  {
    hide U, Negative;
    NegativeIs(x);
    RangeU(x);
  }

  function Flip(x: Word): Word {
    x ^ 0x8000_0000
  }

  function HalfAbove(x: Word): Word {
    x + 0x8000_0000
  }

  lemma FlipBits(x: Word)
    ensures Flip(x) == HalfAbove(x)
  {
  }

  lemma HalfAboveU(x: Word)
    ensures U(HalfAbove(x)) == (U(x) + HALF) % MODULUS
  {
    AddU(x, 0x8000_0000);
    TopU();
  }

  lemma FlippedU(x: Word)
    ensures U(Flip(x)) == S(x) + HALF
  {
    hide U, Flip, HalfAbove;
    FlipBits(x);
    HalfAboveU(x);
    NegativeIs(x);
    RangeU(x);
  }

  // Comparing with the top bits inverted is comparing the two's-complement numbers
  lemma LessS(a: Word, b: Word)
    ensures Less(Flip(a), Flip(b)) <==> S(a) < S(b)
  {
    hide U, Flip, Less;
    LessIff(Flip(a), Flip(b));
    FlippedU(a);
    FlippedU(b);
  }

  lemma NotU(x: Word)
    ensures U(!x) == MODULUS - 1 - U(x)
  {
    hide U;
    NotBits(x);
    AddU(!x, x);
    TopU();
    RangeU(x);
    RangeU(!x);
  }

  lemma NotBits(x: Word)
    ensures !x + x == TOP
  {
  }

  // ----- Difference -----

  function Minus(a: Word, b: Word): Word {
    a - b
  }

  function Plus(a: Word, b: Word): Word {
    a + b
  }

  lemma PlusU(a: Word, b: Word)
    ensures U(Plus(a, b)) == (U(a) + U(b)) % MODULUS
  {
    AddU(a, b);
  }

  lemma MinusPlus(a: Word, b: Word)
    ensures Plus(Minus(a, b), b) == a
  {
    calc {
      Plus(Minus(a, b), b);
      Plus(a - b, b);
      (a - b) + b;
      { Difference(a, b); }
      a;
    }
  }

  lemma Difference(a: Word, b: Word)
    ensures (a - b) + b == a
  {
  }

  lemma MinusU(a: Word, b: Word)
    ensures U(Minus(a, b)) == (U(a) - U(b)) % MODULUS
  {
    hide U, Minus, Plus;
    MinusPlus(a, b);
    PlusU(Minus(a, b), b);
    RangeU(a);
    RangeU(b);
    RangeU(Minus(a, b));
  }

  // ----- Shifts -----

  function Power(n: nat): (p: nat)
    ensures p > 0
  {
    if n == 0 then 1 else 2 * Power(n - 1)
  }

  function Right(a: Word, n: Word): Word
    requires n < 32
  {
    a >> n
  }

  function Left(a: Word, n: Word): Word
    requires n < 32
  {
    a << n
  }

  lemma PredU(n: Word) returns (m: Word)
    requires n != 0
    ensures U(n) == U(m) + 1 && m == n - 1
  {
    hide U;
    m := n - 1;
    assert m + 1 == n && m != TOP;
    Succ(m);
  }

  lemma RightStep(a: Word, n: Word)
    requires n != 0 && n < 32
    ensures n - 1 < 32 && Right(a, n) == Right(a, n - 1) >> 1
  {
  }

  lemma LeftStep(a: Word, n: Word)
    requires n != 0 && n < 32
    ensures n - 1 < 32 && Left(a, n) == Left(a, n - 1) + Left(a, n - 1)
  {
  }

  lemma HalfU(x: Word)
    ensures U(x >> 1) == U(x) / 2
  {
  }

  lemma RightNone(a: Word)
    ensures Right(a, 0) == a && Left(a, 0) == a && Power(0) == 1
  {
  }

  // A logical right shift is the floor quotient by 2^n
  lemma {:induction false} RightU(a: Word, n: Word)
    requires n < 32
    ensures U(Right(a, n)) == U(a) / Power(U(n))
    decreases U(n)
  {
    hide U, Right, Power;
    ZeroU();
    if n == 0 {
      RightNone(a);
    } else {
      var m := PredU(n);
      RightStep(a, n);
      RightU(a, m);
      HalfU(Right(a, m));
      PowerNext(U(m));
      DivDiv(U(a), Power(U(m)), 2);
    }
  }

  lemma PowerNext(n: nat)
    ensures Power(n + 1) == 2 * Power(n)
  {
  }

  // A left shift is the product by 2^n modulo 2^32
  lemma {:induction false} LeftU(a: Word, n: Word)
    requires n < 32
    ensures U(Left(a, n)) == (U(a) * Power(U(n))) % MODULUS
    decreases U(n)
  {
    hide U, Left, Power;
    ZeroU();
    if n == 0 {
      RightNone(a);
      RangeU(a);
    } else {
      var m := PredU(n);
      LeftStep(a, n);
      LeftU(a, m);
      AddU(Left(a, m), Left(a, m));
      PowerNext(U(m));
      DoubledProduct(U(a), Power(U(m)));
    }
  }

  lemma DoubledProduct(x: nat, p: nat)
    ensures ((x * p) % MODULUS + (x * p) % MODULUS) % MODULUS == (x * (2 * p)) % MODULUS
  {
    assert x * (2 * p) == 2 * (x * p);
    Doubled(x * p);
  }

  lemma Doubled(x: nat)
    ensures (x % MODULUS + x % MODULUS) % MODULUS == (2 * x) % MODULUS
  {
  }

  function Not(a: Word): Word {
    !a
  }

  lemma NotS(a: Word)
    ensures U(Not(a)) == MODULUS - 1 - U(a) && S(Not(a)) == -1 - S(a)
  {
    hide U, Negative;
    NotU(a);
    SRange(a);
    SRange(Not(a));
    RangeU(a);
    RangeU(Not(a));
    NegativeIs(a);
    NegativeIs(Not(a));
  }

  // An arithmetic right shift, by inverting a negative number first
  function RightSigned(a: Word, n: Word): Word
    requires n < 32
  {
    if Negative(a) then Not(Right(Not(a), n)) else Right(a, n)
  }

  lemma FloorOfNegative(s: int, p: nat)
    requires p > 0
    ensures s / p == -1 - (-1 - s) / p
  {
    var q, r := (-1 - s) / p, (-1 - s) % p;
    assert -1 - s == q * p + r;
    assert (-1 - q) * p == -q * p - p;
    DivUnique(s, p, -1 - q, p - 1 - r);
  }

  lemma SmallQuotient(x: nat, p: nat)
    requires p > 0
    ensures 0 <= x / p <= x
  {
    assert x == x / p * p + x % p;
    MulNonNeg(x / p, p - 1);
    assert x / p * (p - 1) == x / p * p - x / p;
  }

  lemma RightPositive(a: Word, n: Word)
    requires n < 32 && !Negative(a)
    ensures S(Right(a, n)) == S(a) / Power(U(n)) && 0 <= S(Right(a, n))
  {
    hide U, Negative, Right, Power;
    RightU(a, n);
    NegativeIs(a);
    SmallQuotient(U(a), Power(U(n)));
    NegativeIs(Right(a, n));
  }

  // An arithmetic right shift is the floor quotient of the two's-complement number by 2^n
  lemma RightSignedS(a: Word, n: Word)
    requires n < 32
    ensures S(RightSigned(a, n)) == S(a) / Power(U(n))
  {
    hide U, S, Negative, Right, Power, Not;
    SRange(a);
    if Negative(a) {
      NotS(a);
      SRange(Not(a));
      RightPositive(Not(a), n);
      NotS(Right(Not(a), n));
      FloorOfNegative(S(a), Power(U(n)));
    } else {
      RightPositive(a, n);
    }
  }

  // ----- Low digits -----

  function And(a: Word, m: Word): Word {
    a & m
  }

  lemma LowDigits(x: Word, y: Word, one: bool, m: Word, k: Word)
    requires Grown(x, y, one) && Grown(k, m, true)
    ensures Grown(And(x, k), And(y, m), one)
  {
    if one {
    } else {
    }
  }

  lemma NoDigits(x: Word)
    ensures And(x, 0) == 0
  {
  }

  // m has its n lowest digits set and no others
  predicate IsMask(m: Word, n: nat) {
    if n == 0 then m == 0 else m & 1 != 0 && IsMask(m >> 1, n - 1)
  }

  lemma MaskDigits(m: Word, n: nat) returns (k: Word)
    requires IsMask(m, n) && n > 0
    ensures Grown(m, k, true) && IsMask(k, n - 1)
  {
    k := m >> 1;
  }

  lemma {:induction false} MaskU(x: Word, m: Word, n: nat)
    requires IsMask(m, n)
    ensures U(And(x, m)) == U(x) % Power(n)
  {
    hide U, And, Power, Grown, IsMask;
    if n == 0 {
      MaskNone(x, m);
    } else {
      var y, one := Digits(x);
      var k := MaskDigits(m, n);
      LowDigits(x, y, one, k, m);
      GrownU(x, y, one);
      GrownU(And(x, m), And(y, k), one);
      MaskU(y, k, n - 1);
      PowerNext(n - 1);
      DigitRemainder(U(y), Power(n - 1), if one then 1 else 0);
    }
  }

  lemma MaskNone(x: Word, m: Word)
    requires IsMask(m, 0)
    ensures U(And(x, m)) == U(x) % Power(0)
  {
    NoDigits(x);
  }

  lemma DigitRemainder(y: nat, p: nat, d: nat)
    requires p > 0 && d <= 1
    ensures (2 * y + d) % (2 * p) == 2 * (y % p) + d
  {
    assert y == y / p * p + y % p;
    assert (y / p) * (2 * p) == 2 * (y / p * p);
    SmallQuotient(y, p);
    DivUnique(2 * y + d, 2 * p, y / p, 2 * (y % p) + d);
  }

  lemma NextMask(m: Word, n: nat)
    requires IsMask(m, n) && m < 0x8000_0000
    ensures IsMask(2 * m + 1, n + 1)
  {
    assert (2 * m + 1) & 1 != 0;
    assert (2 * m + 1) >> 1 == m;
  }

  lemma Masks()
    ensures IsMask(1, 1) && IsMask(3, 2) && IsMask(0x1F, 5) && IsMask(0xFF, 8) && IsMask(0xFFF, 12)
        && IsMask(0xFFFF, 16)
  {
    NoMask();
    hide IsMask;
    NextMask(0, 0); NextMask(1, 1); NextMask(3, 2); NextMask(7, 3); NextMask(0xF, 4); NextMask(0x1F, 5);
    NextMask(0x3F, 6); NextMask(0x7F, 7); NextMask(0xFF, 8); NextMask(0x1FF, 9); NextMask(0x3FF, 10);
    NextMask(0x7FF, 11); NextMask(0xFFF, 12); NextMask(0x1FFF, 13); NextMask(0x3FFF, 14); NextMask(0x7FFF, 15);
  }

  lemma NoMask()
    ensures IsMask(0, 0)
  {
  }

  lemma Powers()
    ensures Power(0) == 1 && Power(1) == 2 && Power(2) == 4 && Power(5) == 32 && Power(8) == 256 && Power(12) == 4096
    ensures Power(16) == 65536 && Power(24) == 0x100_0000
  {
    PowerAdd(10, 2);
    PowerAdd(8, 2);
    PowerAdd(8, 8);
    PowerAdd(16, 8);
  }

  lemma {:induction false} PowerAdd(a: nat, b: nat)
    ensures Power(a + b) == Power(a) * Power(b)
  {
    if b > 0 {
      PowerAdd(a, b - 1);
      PowerNext(a + b - 1);
      PowerNext(b - 1);
    }
  }

  // ----- Every number has its word -----

  lemma Double(x: Word, one: bool)
    requires Less(x, 0x8000_0000)
    ensures Grown(Append(x, one), x, one)
  {
    if one {
    } else {
    }
  }

  lemma {:induction false} UW(n: nat)
    requires n < MODULUS
    ensures U(W(n)) == n
  {
    hide U, W, Less, Grown, Append;
    if n == 0 {
      WZero();
      ZeroU();
    } else {
      UW(n / 2);
      TopU();
      LessIff(W(n / 2), 0x8000_0000);
      assert n == 2 * (n / 2) + if n % 2 == 1 then 1 else 0;
      WDigit(n / 2, n % 2 == 1);
      Double(W(n / 2), n % 2 == 1);
      GrownU(W(n), W(n / 2), n % 2 == 1);
    }
  }

  lemma OfIntU(n: int)
    ensures U(OfInt(n)) == n % MODULUS
  {
    hide U, W;
    UW(n % MODULUS);
  }

  lemma OfIntS(n: int)
    requires -0x8000_0000 <= n < HALF
    ensures S(OfInt(n)) == n
  {
    hide U, OfInt, Negative;
    OfIntU(n);
    NegativeIs(OfInt(n));
  }

  lemma OfIntOfU(x: Word)
    ensures OfInt(U(x)) == x && OfInt(S(x)) == x
  {
    hide U, OfInt, Negative;
    RangeU(x);
    OfIntIs(U(x), x);
    OfIntIs(S(x), x);
  }

  // Numbers that agree modulo 2^32 have the same word
  lemma OfIntCongruent(m: int, n: int)
    requires m % MODULUS == n % MODULUS
    ensures OfInt(m) == OfInt(n)
  {
  }

  predicate Even(x: Word) {
    x & 1 == 0
  }

  lemma EvenU(x: Word)
    ensures Even(x) <==> U(x) % 2 == 0
  {
    hide *;
    var y, one := Digits(x);
    EvenDigit(x, y, one);
    GrownU(x, y, one);
  }

  lemma EvenDigit(x: Word, y: Word, one: bool)
    requires Grown(x, y, one)
    ensures Even(x) <==> !one
  {
  }

  lemma LowBitU(x: Word)
    ensures x & 1 == 0 <==> U(x) % 2 == 0
  {
    hide U;
    EvenU(x);
  }
}
