/** The bits of a 64-bit lane, lowest first, and how the lane operations move them. */
module LaneBits {
  import opened Sponge
  import KeccakPerm

  function Down(u: Lane): Lane {
    u >> 1
  }

  predicate Low(u: Lane) {
    u & 1 != 0
  }

  function Bit(u: Lane, z: nat): bool {
    if z == 0 then Low(u) else Bit(Down(u), z - 1)
  }

  // ----- Bitwise operations -----

  lemma XorDown(u: Lane, v: Lane)
    ensures Down(Xor(u, v)) == Xor(Down(u), Down(v)) && Low(Xor(u, v)) == (Low(u) != Low(v))
  {
  }

  lemma {:induction false} BitXor(u: Lane, v: Lane, z: nat)
    ensures Bit(Xor(u, v), z) == (Bit(u, z) != Bit(v, z))
    decreases z
  {
    hide Xor, Down, Low;
    XorDown(u, v);
    if z > 0 {
      BitXor(Down(u), Down(v), z - 1);
    }
  }

  lemma OrDown(u: Lane, v: Lane)
    ensures Down(KeccakPerm.Or(u, v)) == KeccakPerm.Or(Down(u), Down(v))
        && Low(KeccakPerm.Or(u, v)) == (Low(u) || Low(v))
  {
  }

  lemma {:induction false} BitOr(u: Lane, v: Lane, z: nat)
    ensures Bit(KeccakPerm.Or(u, v), z) == (Bit(u, z) || Bit(v, z))
    decreases z
  {
    hide KeccakPerm.Or, Down, Low;
    OrDown(u, v);
    if z > 0 {
      BitOr(Down(u), Down(v), z - 1);
    }
  }

  function And(u: Lane, v: Lane): Lane {
    u & v
  }

  function Not(u: Lane): Lane {
    !u
  }

  lemma AndDown(u: Lane, v: Lane)
    ensures Down(And(u, v)) == And(Down(u), Down(v)) && Low(And(u, v)) == (Low(u) && Low(v))
  {
  }

  lemma {:induction false} BitAnd(u: Lane, v: Lane, z: nat)
    ensures Bit(And(u, v), z) == (Bit(u, z) && Bit(v, z))
    decreases z
  {
    hide And, Down, Low;
    AndDown(u, v);
    if z > 0 {
      BitAnd(Down(u), Down(v), z - 1);
    }
  }

  lemma {:induction false} BitZero(z: nat)
    ensures !Bit(0, z)
  {
    if z > 0 {
      BitZero(z - 1);
    }
  }

  // ----- Masks -----

  // The n lowest bits of m are its only ones
  predicate IsMask(m: Lane, n: nat) {
    if n == 0 then m == 0 else Low(m) && IsMask(Down(m), n - 1)
  }

  lemma {:induction false} BitMask(m: Lane, n: nat, z: nat)
    requires IsMask(m, n)
    ensures Bit(m, z) == (z < n)
    decreases n
  {
    hide Down, Low;
    if n == 0 {
      BitZero(z);
    } else if z > 0 {
      BitMask(Down(m), n - 1, z - 1);
    }
  }

  lemma NextMask(m: Lane, n: nat)
    requires IsMask(m, n) && m < 0x8000_0000_0000_0000
    ensures IsMask(2 * m + 1, n + 1)
  {
    MaskStep(m);
  }

  lemma MaskStep(m: Lane)
    requires m < 0x8000_0000_0000_0000
    ensures Low(2 * m + 1) && Down(2 * m + 1) == m
  {
  }

  // Bit p of m is its only one
  predicate OneHot(m: Lane, p: nat) {
    if p == 0 then m == 1 else !Low(m) && OneHot(Down(m), p - 1)
  }

  lemma OneIs(z: nat)
    ensures Bit(1, z) == (z == 0)
  {
    if z > 0 {
      BitZero(z - 1);
    }
  }

  lemma {:induction false} BitOneHot(m: Lane, p: nat, z: nat)
    requires OneHot(m, p)
    ensures Bit(m, z) == (z == p)
    decreases p
  {
    hide Down, Low;
    if p == 0 {
      OneIs(z);
    } else if z > 0 {
      BitOneHot(Down(m), p - 1, z - 1);
    }
  }

  lemma NextHot(m: Lane, p: nat)
    requires OneHot(m, p) && m < 0x8000_0000_0000_0000
    ensures OneHot(2 * m, p + 1)
  {
    HotStep(m);
  }

  lemma HotStep(m: Lane)
    requires m < 0x8000_0000_0000_0000
    ensures !Low(2 * m) && Down(2 * m) == m
  {
  }

  const ALL: Lane := 0xFFFF_FFFF_FFFF_FFFF
  const BELOW_TOP: Lane := 0x7FFF_FFFF_FFFF_FFFF

  lemma NoMask()
    ensures IsMask(0, 0)
  {
  }

  lemma Masks16()
    ensures IsMask(0xFFFF, 16)
  {
    NoMask();
    hide IsMask;
    NextMask(0x0, 0); NextMask(0x1, 1); NextMask(0x3, 2); NextMask(0x7, 3); NextMask(0xF, 4); NextMask(0x1F, 5);
    NextMask(0x3F, 6); NextMask(0x7F, 7); NextMask(0xFF, 8); NextMask(0x1FF, 9); NextMask(0x3FF, 10);
    NextMask(0x7FF, 11); NextMask(0xFFF, 12); NextMask(0x1FFF, 13); NextMask(0x3FFF, 14); NextMask(0x7FFF, 15);
  }

  lemma Masks32()
    requires IsMask(0xFFFF, 16)
    ensures IsMask(0xFFFFFFFF, 32)
  {
    hide IsMask;
    NextMask(0xFFFF, 16); NextMask(0x1FFFF, 17); NextMask(0x3FFFF, 18); NextMask(0x7FFFF, 19); NextMask(0xFFFFF, 20);
    NextMask(0x1FFFFF, 21); NextMask(0x3FFFFF, 22); NextMask(0x7FFFFF, 23); NextMask(0xFFFFFF, 24);
    NextMask(0x1FFFFFF, 25); NextMask(0x3FFFFFF, 26); NextMask(0x7FFFFFF, 27); NextMask(0xFFFFFFF, 28);
    NextMask(0x1FFFFFFF, 29); NextMask(0x3FFFFFFF, 30); NextMask(0x7FFFFFFF, 31);
  }

  lemma Masks48()
    requires IsMask(0xFFFFFFFF, 32)
    ensures IsMask(0xFFFFFFFFFFFF, 48)
  {
    hide IsMask;
    NextMask(0xFFFFFFFF, 32); NextMask(0x1FFFFFFFF, 33); NextMask(0x3FFFFFFFF, 34); NextMask(0x7FFFFFFFF, 35);
    NextMask(0xFFFFFFFFF, 36); NextMask(0x1FFFFFFFFF, 37); NextMask(0x3FFFFFFFFF, 38); NextMask(0x7FFFFFFFFF, 39);
    NextMask(0xFFFFFFFFFF, 40); NextMask(0x1FFFFFFFFFF, 41); NextMask(0x3FFFFFFFFFF, 42);
    NextMask(0x7FFFFFFFFFF, 43); NextMask(0xFFFFFFFFFFF, 44); NextMask(0x1FFFFFFFFFFF, 45);
    NextMask(0x3FFFFFFFFFFF, 46); NextMask(0x7FFFFFFFFFFF, 47);
  }

  lemma Masks64()
    requires IsMask(0xFFFFFFFFFFFF, 48)
    ensures IsMask(0xFFFFFFFFFFFFFFFF, 64)
    ensures IsMask(BELOW_TOP, 63)
  {
    hide IsMask;
    NextMask(0xFFFFFFFFFFFF, 48); NextMask(0x1FFFFFFFFFFFF, 49); NextMask(0x3FFFFFFFFFFFF, 50);
    NextMask(0x7FFFFFFFFFFFF, 51); NextMask(0xFFFFFFFFFFFFF, 52); NextMask(0x1FFFFFFFFFFFFF, 53);
    NextMask(0x3FFFFFFFFFFFFF, 54); NextMask(0x7FFFFFFFFFFFFF, 55); NextMask(0xFFFFFFFFFFFFFF, 56);
    NextMask(0x1FFFFFFFFFFFFFF, 57); NextMask(0x3FFFFFFFFFFFFFF, 58); NextMask(0x7FFFFFFFFFFFFFF, 59);
    NextMask(0xFFFFFFFFFFFFFFF, 60); NextMask(0x1FFFFFFFFFFFFFFF, 61); NextMask(0x3FFFFFFFFFFFFFFF, 62);
    NextMask(0x7FFFFFFFFFFFFFFF, 63);
  }

  lemma LongMasks()
    ensures IsMask(BELOW_TOP, 63) && IsMask(ALL, 64)
  {
    hide IsMask;
    Masks16();
    Masks32();
    Masks48();
    Masks64();
  }

  lemma OneHots()
    ensures OneHot(1, 0) && OneHot(2, 1) && OneHot(8, 3) && OneHot(0x80, 7) && OneHot(0x8000, 15)
    ensures OneHot(0x8000_0000, 31) && OneHot(0x8000_0000_0000_0000, 63)
  {
    assert OneHot(1, 0);
    hide OneHot;
    NextHot(0x1, 0); NextHot(0x2, 1); NextHot(0x4, 2); NextHot(0x8, 3); NextHot(0x10, 4); NextHot(0x20, 5);
    NextHot(0x40, 6); NextHot(0x80, 7); NextHot(0x100, 8); NextHot(0x200, 9); NextHot(0x400, 10); NextHot(0x800, 11);
    NextHot(0x1000, 12); NextHot(0x2000, 13); NextHot(0x4000, 14); NextHot(0x8000, 15); NextHot(0x10000, 16);
    NextHot(0x20000, 17); NextHot(0x40000, 18); NextHot(0x80000, 19); NextHot(0x100000, 20); NextHot(0x200000, 21);
    NextHot(0x400000, 22); NextHot(0x800000, 23); NextHot(0x1000000, 24); NextHot(0x2000000, 25);
    NextHot(0x4000000, 26); NextHot(0x8000000, 27); NextHot(0x10000000, 28); NextHot(0x20000000, 29);
    NextHot(0x40000000, 30); NextHot(0x80000000, 31); NextHot(0x100000000, 32); NextHot(0x200000000, 33);
    NextHot(0x400000000, 34); NextHot(0x800000000, 35); NextHot(0x1000000000, 36); NextHot(0x2000000000, 37);
    NextHot(0x4000000000, 38); NextHot(0x8000000000, 39); NextHot(0x10000000000, 40); NextHot(0x20000000000, 41);
    NextHot(0x40000000000, 42); NextHot(0x80000000000, 43); NextHot(0x100000000000, 44); NextHot(0x200000000000, 45);
    NextHot(0x400000000000, 46); NextHot(0x800000000000, 47); NextHot(0x1000000000000, 48);
    NextHot(0x2000000000000, 49); NextHot(0x4000000000000, 50); NextHot(0x8000000000000, 51);
    NextHot(0x10000000000000, 52); NextHot(0x20000000000000, 53); NextHot(0x40000000000000, 54);
    NextHot(0x80000000000000, 55); NextHot(0x100000000000000, 56); NextHot(0x200000000000000, 57);
    NextHot(0x400000000000000, 58); NextHot(0x800000000000000, 59); NextHot(0x1000000000000000, 60);
    NextHot(0x2000000000000000, 61); NextHot(0x4000000000000000, 62);
  }

  lemma AllOf(x: Lane)
    ensures And(x, ALL) == x
  {
  }

  // A lane has 64 bits
  lemma BitHigh(x: Lane, z: nat)
    requires z >= 64
    ensures !Bit(x, z)
  {
    hide And, Bit, IsMask;
    AllOf(x);
    LongMasks();
    BitAnd(x, ALL, z);
    BitMask(ALL, 64, z);
  }

  lemma AllXor(x: Lane)
    ensures Not(x) == Xor(x, ALL)
  {
  }

  lemma BitNot(x: Lane, z: nat)
    requires z < 64
    ensures Bit(Not(x), z) == !Bit(x, z)
  {
    hide Not, Bit, IsMask, Xor;
    AllXor(x);
    LongMasks();
    BitXor(x, ALL, z);
    BitMask(ALL, 64, z);
  }

  // ----- Shifts and rotations -----

  function Up(x: Lane): Lane {
    x << 1
  }

  lemma DownUp(x: Lane)
    ensures Down(Up(x)) == And(x, BELOW_TOP) && !Low(Up(x))
  {
  }

  lemma BitUp(x: Lane, z: nat)
    requires z < 64
    ensures Bit(Up(x), z) == (z > 0 && Bit(x, z - 1))
  {
    DownUp(x);
    hide Up, And, Down, Low, IsMask;
    LongMasks();
    if z > 0 {
      BitAnd(x, BELOW_TOP, z - 1);
      BitMask(BELOW_TOP, 63, z - 1);
    }
  }

  function Ups(x: Lane, k: nat): Lane {
    if k == 0 then x else Up(Ups(x, k - 1))
  }

  function Downs(x: Lane, k: nat): Lane {
    if k == 0 then x else Down(Downs(x, k - 1))
  }

  lemma {:induction false} BitUps(x: Lane, k: nat, z: nat)
    requires z < 64
    ensures Bit(Ups(x, k), z) == (z >= k && Bit(x, z - k))
    decreases k
  {
    hide Up, Bit;
    if k > 0 {
      BitUp(Ups(x, k - 1), z);
      if z > 0 {
        BitUps(x, k - 1, z - 1);
      }
    }
  }

  lemma {:induction false} BitDowns(x: Lane, k: nat, z: nat)
    ensures Bit(Downs(x, k), z) == Bit(x, z + k)
    decreases k
  {
    hide Down, Low;
    if k > 0 {
      BitDowns(x, k - 1, z + 1);
    }
  }

  // k is the number n holds
  predicate Count(n: Lane, k: nat) {
    if k == 0 then n == 0 else n != 0 && Count(n - 1, k - 1)
  }

  lemma LeftOdd(x: Lane, n: Lane)
    requires 1 < n < 64 && n & 1 != 0
    ensures 0 < n - 1 < 64 && KeccakPerm.Left(x, n) == Up(KeccakPerm.Left(x, n - 1))
  {
  }

  lemma LeftEven(x: Lane, n: Lane)
    requires 1 < n < 64 && n & 1 == 0
    ensures 0 < n - 1 < 64 && KeccakPerm.Left(x, n) == Up(KeccakPerm.Left(x, n - 1))
  {
  }

  lemma LeftOne(x: Lane)
    ensures KeccakPerm.Left(x, 1) == Up(x)
  {
  }

  function RightBy(x: Lane, m: Lane): Lane
    requires 0 < m < 64
  {
    x >> m
  }

  lemma RightOdd(x: Lane, m: Lane)
    requires 1 < m < 64 && m & 1 != 0
    ensures 0 < m - 1 < 64 && RightBy(x, m) == Down(RightBy(x, m - 1))
  {
  }

  lemma RightEven(x: Lane, m: Lane)
    requires 1 < m < 64 && m & 1 == 0
    ensures 0 < m - 1 < 64 && RightBy(x, m) == Down(RightBy(x, m - 1))
  {
  }

  lemma RightOne(x: Lane)
    ensures RightBy(x, 1) == Down(x)
  {
  }

  lemma LeftStep(x: Lane, n: Lane)
    requires 1 < n < 64
    ensures 0 < n - 1 < 64 && KeccakPerm.Left(x, n) == Up(KeccakPerm.Left(x, n - 1))
  {
    hide KeccakPerm.Left, Up;
    if n & 1 == 0 {
      LeftEven(x, n);
    } else {
      LeftOdd(x, n);
    }
  }

  lemma RightStep(x: Lane, m: Lane)
    requires 1 < m < 64
    ensures 0 < m - 1 < 64 && RightBy(x, m) == Down(RightBy(x, m - 1))
  {
    hide RightBy, Down;
    if m & 1 == 0 {
      RightEven(x, m);
    } else {
      RightOdd(x, m);
    }
  }

  lemma CountOne(n: Lane)
    requires Count(n, 1)
    ensures n == 1
  {
    assert Count(n - 1, 0);
  }

  lemma CountMore(n: Lane, k: nat)
    requires Count(n, k) && k > 1 && n < 64
    ensures 1 < n && 0 < n - 1 < 64 && Count(n - 1, k - 1)
  {
    assert Count(n - 1, k - 1);
  }

  lemma {:induction false} LeftIsUps(x: Lane, n: Lane, k: nat)
    requires 0 < n < 64 && 0 < k && Count(n, k)
    ensures KeccakPerm.Left(x, n) == Ups(x, k)
    decreases k
  {
    hide KeccakPerm.Left, Up, Count;
    if k == 1 {
      CountOne(n);
      LeftOne(x);
      assert Ups(x, 1) == Up(Ups(x, 0));
    } else {
      CountMore(n, k);
      LeftStep(x, n);
      LeftIsUps(x, n - 1, k - 1);
    }
  }

  lemma {:induction false} RightIsDowns(x: Lane, m: Lane, k: nat)
    requires 0 < m < 64 && 0 < k && Count(m, k)
    ensures RightBy(x, m) == Downs(x, k)
    decreases k
  {
    hide RightBy, Down, Count;
    if k == 1 {
      CountOne(m);
      RightOne(x);
      assert Downs(x, 1) == Down(Downs(x, 0));
    } else {
      CountMore(m, k);
      RightStep(x, m);
      RightIsDowns(x, m - 1, k - 1);
    }
  }

  lemma CountNext(n: Lane, k: nat)
    requires Count(n, k) && n < 64
    ensures Count(n + 1, k + 1)
  {
    assert n + 1 != 0 && n + 1 - 1 == n;
  }

  lemma CountZero()
    ensures Count(0, 0)
  {
  }

  lemma Counts8()
    ensures Count(1, 1) && Count(2, 2) && Count(3, 3) && Count(4, 4) && Count(5, 5) && Count(6, 6) && Count(7, 7) &&
      Count(8, 8)
  {
    CountZero();
    hide Count;
    CountNext(0, 0); CountNext(1, 1); CountNext(2, 2); CountNext(3, 3); CountNext(4, 4); CountNext(5, 5);
    CountNext(6, 6); CountNext(7, 7);
  }

  lemma Counts16()
    requires Count(8, 8)
    ensures Count(9, 9) && Count(10, 10) && Count(11, 11) && Count(12, 12) && Count(13, 13) && Count(14, 14) &&
      Count(15, 15) && Count(16, 16)
  {
    hide Count;
    CountNext(8, 8); CountNext(9, 9); CountNext(10, 10); CountNext(11, 11); CountNext(12, 12); CountNext(13, 13);
    CountNext(14, 14); CountNext(15, 15);
  }

  lemma Counts24()
    requires Count(16, 16)
    ensures Count(17, 17) && Count(18, 18) && Count(19, 19) && Count(20, 20) && Count(21, 21) && Count(22, 22) &&
      Count(23, 23) && Count(24, 24)
  {
    hide Count;
    CountNext(16, 16); CountNext(17, 17); CountNext(18, 18); CountNext(19, 19); CountNext(20, 20); CountNext(21, 21);
    CountNext(22, 22); CountNext(23, 23);
  }

  lemma Counts32()
    requires Count(24, 24)
    ensures Count(25, 25) && Count(26, 26) && Count(27, 27) && Count(28, 28) && Count(29, 29) && Count(30, 30) &&
      Count(31, 31) && Count(32, 32)
  {
    hide Count;
    CountNext(24, 24); CountNext(25, 25); CountNext(26, 26); CountNext(27, 27); CountNext(28, 28); CountNext(29, 29);
    CountNext(30, 30); CountNext(31, 31);
  }

  lemma Counts40()
    requires Count(32, 32)
    ensures Count(33, 33) && Count(34, 34) && Count(35, 35) && Count(36, 36) && Count(37, 37) && Count(38, 38) &&
      Count(39, 39) && Count(40, 40)
  {
    hide Count;
    CountNext(32, 32); CountNext(33, 33); CountNext(34, 34); CountNext(35, 35); CountNext(36, 36); CountNext(37, 37);
    CountNext(38, 38); CountNext(39, 39);
  }

  lemma Counts48()
    requires Count(40, 40)
    ensures Count(41, 41) && Count(42, 42) && Count(43, 43) && Count(44, 44) && Count(45, 45) && Count(46, 46) &&
      Count(47, 47) && Count(48, 48)
  {
    hide Count;
    CountNext(40, 40); CountNext(41, 41); CountNext(42, 42); CountNext(43, 43); CountNext(44, 44); CountNext(45, 45);
    CountNext(46, 46); CountNext(47, 47);
  }

  lemma Counts56()
    requires Count(48, 48)
    ensures Count(49, 49) && Count(50, 50) && Count(51, 51) && Count(52, 52) && Count(53, 53) && Count(54, 54) &&
      Count(55, 55) && Count(56, 56)
  {
    hide Count;
    CountNext(48, 48); CountNext(49, 49); CountNext(50, 50); CountNext(51, 51); CountNext(52, 52); CountNext(53, 53);
    CountNext(54, 54); CountNext(55, 55);
  }

  lemma Counts63()
    requires Count(56, 56)
    ensures Count(57, 57) && Count(58, 58) && Count(59, 59) && Count(60, 60) && Count(61, 61) && Count(62, 62) &&
      Count(63, 63)
  {
    hide Count;
    CountNext(56, 56); CountNext(57, 57); CountNext(58, 58); CountNext(59, 59); CountNext(60, 60); CountNext(61, 61);
    CountNext(62, 62);
  }

  // Every number of places below 64
  lemma Counts()
    ensures Count(1, 1) && Count(2, 2) && Count(3, 3) && Count(4, 4) && Count(5, 5) && Count(6, 6) && Count(7, 7) &&
      Count(8, 8) && Count(9, 9) && Count(10, 10) && Count(11, 11) && Count(12, 12) && Count(13, 13) &&
      Count(14, 14) && Count(15, 15) && Count(16, 16) && Count(17, 17) && Count(18, 18) && Count(19, 19) &&
      Count(20, 20) && Count(21, 21) && Count(22, 22) && Count(23, 23) && Count(24, 24) && Count(25, 25) &&
      Count(26, 26) && Count(27, 27) && Count(28, 28) && Count(29, 29) && Count(30, 30) && Count(31, 31) &&
      Count(32, 32) && Count(33, 33) && Count(34, 34) && Count(35, 35) && Count(36, 36) && Count(37, 37) &&
      Count(38, 38) && Count(39, 39) && Count(40, 40) && Count(41, 41) && Count(42, 42) && Count(43, 43) &&
      Count(44, 44) && Count(45, 45) && Count(46, 46) && Count(47, 47) && Count(48, 48) && Count(49, 49) &&
      Count(50, 50) && Count(51, 51) && Count(52, 52) && Count(53, 53) && Count(54, 54) && Count(55, 55) &&
      Count(56, 56) && Count(57, 57) && Count(58, 58) && Count(59, 59) && Count(60, 60) && Count(61, 61) &&
      Count(62, 62) && Count(63, 63)
  {
    hide Count;
    Counts8();
    Counts16();
    Counts24();
    Counts32();
    Counts40();
    Counts48();
    Counts56();
    Counts63();
  }

  // A rotation by k places takes bit z from bit z - k, around the lane
  lemma {:induction false} BitRotate(x: Lane, n: Lane, m: Lane, k: nat, z: nat)
    requires 0 < n < 64 && 0 < k < 64 && z < 64 && Count(n, k) && m == 64 - n && 0 < m < 64 && Count(m, 64 - k)
    ensures Bit(KeccakPerm.Rotate(x, n), z) == Bit(x, (z + 64 - k) % 64)
  {
    RightForm(x, n, m);
    hide Bit, Count, KeccakPerm.Left, KeccakPerm.Right, KeccakPerm.Or, RightBy, Ups, Downs;
    LeftIsUps(x, n, k);
    RightIsDowns(x, m, 64 - k);
    BitOr(KeccakPerm.Left(x, n), KeccakPerm.Right(x, n), z);
    BitUps(x, k, z);
    BitDowns(x, 64 - k, z);
    if z >= k {
      BitHigh(x, z + (64 - k));
      assert (z + 64 - k) % 64 == z - k;
    }
  }

  lemma RightForm(x: Lane, n: Lane, m: Lane)
    requires 0 < n < 64 && m == 64 - n && 0 < m < 64
    ensures KeccakPerm.Right(x, n) == RightBy(x, m)
  {
  }
}
