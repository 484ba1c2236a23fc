/** Loads and stores of the core against the byte-addressed memory of the manual. */
module IsaMemory {
  import opened Division
  import opened Words
  import opened Isa
  import opened IsaFormats
  import Rv32

  // ----- Addresses -----

  lemma IndexU(adr: Word)
    ensures Rv32.WordIndex(adr) == U(adr) / 4
  {
    hide U;
    HalfU(adr);
    HalfU(adr >> 1);
    TwoShifts(adr);
  }

  lemma TwoShifts(x: Word)
    ensures x >> 2 == (x >> 1) >> 1
  {
  }

  lemma OffsetU(adr: Word)
    ensures var o := adr & 3;
      (o == 0 || o == 1 || o == 2 || o == 3) && U(o) == U(adr) % 4
  {
    Masks();
    Powers();
    MaskU(adr, 3, 2);
    OffsetCases(adr);
  }

  lemma OffsetCases(adr: Word)
    ensures var o := adr & 3;
      o == 0 || o == 1 || o == 2 || o == 3
  {
  }

  lemma ReadU(m: Rv32.Memory, adr: Word)
    ensures U(Rv32.ReadWord(m, adr)) == WordAt(m, U(adr) / 4)
  {
    IndexU(adr);
    ZeroU();
    hide U, Rv32.WordIndex;
  }

  // ----- Digits of a number -----

  lemma DigitsAre(x: nat)
    requires x < MODULUS
    ensures Digit(x, 0) == x % 256 && Digit(x, 1) == x / 256 % 256 && Digit(x, 2) == x / 65536 % 256
    ensures Digit(x, 3) == x / 0x100_0000
  {
    hide Power;
    Powers();
  }

  lemma Composed(x: nat)
    requires x < MODULUS
    ensures x == Digit(x, 0) + 256 * Digit(x, 1) + 65536 * Digit(x, 2) + 0x100_0000 * Digit(x, 3)
    ensures x % 65536 == Digit(x, 0) + 256 * Digit(x, 1) && x / 65536 == Digit(x, 2) + 256 * Digit(x, 3)
    ensures forall k :: 0 <= k < 4 ==> 0 <= Digit(x, k) < 256
  {
    hide Digit;
    DigitsAre(x);
    Bytewise(x);
  }

  lemma Quotients(x: nat)
    ensures x / 65536 == x / 256 / 256 && x / 0x100_0000 == x / 256 / 256 / 256
  {
    assert x / 0x100_0000 == x / 65536 / 256;
  }

  lemma Bytewise(x: nat)
    requires x < MODULUS
    ensures x == x % 256 + 256 * (x / 256 % 256) + 65536 * (x / 65536 % 256) + 0x100_0000 * (x / 0x100_0000)
    ensures x % 65536 == x % 256 + 256 * (x / 256 % 256) && x / 65536 == x / 65536 % 256 + 256 * (x / 0x100_0000)
    ensures x / 0x100_0000 < 256
  {
    Quotients(x);
    var q1 := x / 256;
    var q2 := q1 / 256;
    assert x == 256 * q1 + x % 256 && q1 == 256 * q2 + q1 % 256 && q2 == 256 * (q2 / 256) + q2 % 256;
    DivUnique(x, 65536, q2, x % 256 + 256 * (q1 % 256));
  }

  // ----- Loads -----

  lemma ByteSign(b: Word)
    requires Less(b, 0x100)
    ensures b & 0x80 != 0 <==> !Less(b, 0x80)
    ensures b | 0xFFFF_FF00 == Plus(b, 0xFFFF_FF00)
  {
  }

  lemma HalfSign(h: Word)
    requires Less(h, 0x1_0000)
    ensures h & 0x8000 != 0 <==> !Less(h, 0x8000)
    ensures h | 0xFFFF_0000 == Plus(h, 0xFFFF_0000)
  {
  }

  lemma Literals()
    ensures U(0x80) == 0x80 && U(0x100) == 0x100 && U(0x8000) == 0x8000 && U(0x1_0000) == 0x1_0000
    ensures U(0xFFFF_FF00) == MODULUS - 0x100 && U(0xFFFF_0000) == MODULUS - 0x1_0000
  {
    UnfoldU(1);
    hide U;
    ZeroU();
    Times2(1); Times2(2); Times2(4); Times2(8); Times2(0x10); Times2(0x20); Times2(0x40); Times2(0x80); Times2(0x100);
    Times2(0x200); Times2(0x400); Times2(0x800); Times2(0x1000); Times2(0x2000); Times2(0x4000); Times2(0x8000);
    Complement(0x100, 0xFFFF_FF00);
    Complement(0x1_0000, 0xFFFF_0000);
  }

  function ExtendedByte(b: Word): Word {
    if b & 0x80 != 0 then b | 0xFFFF_FF00 else b
  }

  function ExtendedHalf(h: Word): Word {
    if h & 0x8000 != 0 then h | 0xFFFF_0000 else h
  }

  lemma ExtendedByteIs(b: Word)
    requires U(b) < 256
    ensures ExtendedByte(b) == OfInt(Signed(U(b), 256))
  {
    hide U, Less, Plus, OfInt;
    Literals();
    LessIff(b, 0x100);
    LessIff(b, 0x80);
    ByteSign(b);
    PlusU(b, 0xFFFF_FF00);
    OfIntIs(Signed(U(b), 256), ExtendedByte(b));
  }

  lemma ExtendedHalfIs(h: Word)
    requires U(h) < 65536
    ensures ExtendedHalf(h) == OfInt(Signed(U(h), 65536))
  {
    hide U, Less, Plus, OfInt;
    Literals();
    LessIff(h, 0x1_0000);
    LessIff(h, 0x8000);
    HalfSign(h);
    PlusU(h, 0xFFFF_0000);
    OfIntIs(Signed(U(h), 65536), ExtendedHalf(h));
  }

  lemma LoadForms(word: Word, offset: Word)
    ensures Rv32.LoadExtend(word, offset, 0) == ExtendedByte(Rv32.SelectedByte(word, offset))
    ensures Rv32.LoadExtend(word, offset, 1) == ExtendedHalf(Rv32.SelectedHalf(word, offset))
    ensures Rv32.LoadExtend(word, offset, 2) == word
    ensures Rv32.LoadExtend(word, offset, 4) == Rv32.SelectedByte(word, offset)
    ensures Rv32.LoadExtend(word, offset, 5) == Rv32.SelectedHalf(word, offset)
  {
    hide Rv32.SelectedByte, Rv32.SelectedHalf;
  }

  lemma HalfForm(w: Word)
    ensures Rv32.SelectedHalf(w, 0) == And(w, 0xFFFF) && Rv32.SelectedHalf(w, 2) == Right(w, 16)
  {
  }

  lemma SelectedHalfU(w: Word, o: Word)
    requires o == 0 || o == 2
    ensures U(Rv32.SelectedHalf(w, o)) == Digit(U(w), U(o)) + 256 * Digit(U(w), U(o) + 1)
  {
    HalfForm(w);
    SmallNumbers();
    hide U, And, Right, Rv32.SelectedHalf;
    Masks();
    Powers();
    MaskU(w, 0xFFFF, 16);
    RightU(w, 16);
    RangeU(w);
    Composed(U(w));
  }

  predicate Aligned(w: Width, a: nat) {
    a % Size(w) == 0
  }

  lemma LittleEndian1(m: Rv32.Memory, a: nat)
    ensures LittleEndian(m, a, 1) == Digit(WordAt(m, a / 4), a % 4)
  {
  }

  lemma LittleEndian2(m: Rv32.Memory, a: nat)
    requires a % 2 == 0
    ensures LittleEndian(m, a, 2) == Digit(WordAt(m, a / 4), a % 4) + 256 * Digit(WordAt(m, a / 4), a % 4 + 1)
  {
    hide Digit, WordAt;
    LittleEndian1(m, a + 1);
  }

  lemma LittleEndianMore(m: Rv32.Memory, a: nat, n: nat)
    requires n > 0
    ensures LittleEndian(m, a, n) == Digit(WordAt(m, a / 4), a % 4) + 256 * LittleEndian(m, a + 1, n - 1)
  {
    hide Digit, WordAt;
  }

  lemma FourPlaces(a: nat)
    requires a % 4 == 0
    ensures (a + 1) / 4 == a / 4 && (a + 1) % 4 == 1 && (a + 2) / 4 == a / 4 && (a + 2) % 4 == 2 && (a + 2) % 2 == 0
  {
    var q := a / 4;
    assert a == q * 4 + 0;
    DivUnique(a + 1, 4, q, 1);
    DivUnique(a + 2, 4, q, 2);
    DivUnique(a + 2, 2, 2 * q + 1, 0);
  }

  lemma LittleEndian4(m: Rv32.Memory, a: nat)
    requires a % 4 == 0
    ensures LittleEndian(m, a, 4) == WordAt(m, a / 4)
  {
    hide Digit, WordAt, LittleEndian;
    FourPlaces(a);
    LittleEndianMore(m, a, 4);
    LittleEndianMore(m, a + 1, 3);
    LittleEndian2(m, a + 2);
    WordRange(m, a / 4);
    Composed(WordAt(m, a / 4));
  }

  lemma WordRange(m: Rv32.Memory, i: nat)
    ensures WordAt(m, i) < MODULUS
  {
    if i in m {
      RangeU(m[i]);
    }
  }

  // A load gives the number in the bytes at its address, sign- or zero-extended
  lemma {:induction false} LoadIs(m: Rv32.Memory, w: Width, adr: Word)
    requires Aligned(w, U(adr))
    ensures Rv32.LoadExtend(Rv32.ReadWord(m, adr), adr & 3, WidthCode(w) as bv3) == OfInt(Loaded(m, w, U(adr)))
  {
    hide U, Rv32.LoadExtend, Rv32.ReadWord, Digit, WordAt, ExtendedByte, ExtendedHalf, LittleEndian, OfInt;
    hide Rv32.SelectedByte, Rv32.SelectedHalf, Signed;
    var word, o := Rv32.ReadWord(m, adr), adr & 3;
    ReadU(m, adr);
    OffsetU(adr);
    LoadForms(word, o);
    if w == B || w == BU {
      SelectedU(word, o);
      LittleEndian1(m, U(adr));
      WordRange(m, U(adr) / 4);
      Composed(U(word));
      ExtendedByteIs(Rv32.SelectedByte(word, o));
      OfIntOfU(Rv32.SelectedByte(word, o));
    } else if w == H || w == HU {
      SmallNumbers();
      SelectedHalfU(word, o);
      LittleEndian2(m, U(adr));
      WordRange(m, U(adr) / 4);
      Composed(U(word));
      ExtendedHalfIs(Rv32.SelectedHalf(word, o));
      OfIntOfU(Rv32.SelectedHalf(word, o));
    } else {
      LittleEndian4(m, U(adr));
      OfIntOfU(word);
    }
  }

  // ----- Stores -----

  lemma PutForms(x: nat, b: int)
    ensures PutDigit(x, 0, b) == x + (b - Digit(x, 0)) && PutDigit(x, 1, b) == x + 256 * (b - Digit(x, 1))
    ensures PutDigit(x, 2, b) == x + 65536 * (b - Digit(x, 2))
    ensures PutDigit(x, 3, b) == x + 0x100_0000 * (b - Digit(x, 3))
  {
    hide Digit, Power;
    Powers();
  }

  // The number with byte k replaced has the other bytes unchanged
  lemma PutDigitIs(x: nat, k: nat, b: int)
    requires x < MODULUS && k < 4 && 0 <= b < 256
    ensures 0 <= PutDigit(x, k, b) < MODULUS
    ensures forall j :: 0 <= j < 4 ==> Digit(PutDigit(x, k, b), j) == if j == k then b else Digit(x, j)
  {
    hide Digit, PutDigit;
    Composed(x);
    PutForms(x, b);
    var y := PutDigit(x, k, b);
    if k == 0 {
      DigitsUnique(y, b, Digit(x, 1), Digit(x, 2), Digit(x, 3));
    } else if k == 1 {
      DigitsUnique(y, Digit(x, 0), b, Digit(x, 2), Digit(x, 3));
    } else if k == 2 {
      DigitsUnique(y, Digit(x, 0), Digit(x, 1), b, Digit(x, 3));
    } else {
      DigitsUnique(y, Digit(x, 0), Digit(x, 1), Digit(x, 2), b);
    }
  }

  predicate IsByte(b: int) {
    0 <= b < 256
  }

  lemma DigitsUnique(y: int, b0: int, b1: int, b2: int, b3: int)
    requires IsByte(b0) && IsByte(b1) && IsByte(b2) && IsByte(b3)
    requires y == b0 + 256 * b1 + 65536 * b2 + 0x100_0000 * b3
    ensures 0 <= y < MODULUS && Digit(y, 0) == b0 && Digit(y, 1) == b1 && Digit(y, 2) == b2 && Digit(y, 3) == b3
  {
    DigitsAre(y);
    hide Digit;
    BytewiseUnique(y, b0, b1, b2, b3);
  }

  lemma BytewiseUnique(y: nat, b0: int, b1: int, b2: int, b3: int)
    requires IsByte(b0) && IsByte(b1) && IsByte(b2) && IsByte(b3)
    requires y == b0 + 256 * b1 + 65536 * b2 + 0x100_0000 * b3
    ensures y % 256 == b0 && y / 256 % 256 == b1 && y / 65536 % 256 == b2 && y / 0x100_0000 == b3
  {
    assert y / 256 == b1 + 256 * b2 + 65536 * b3;
    assert y / 65536 == b2 + 256 * b3;
  }

  // Two words with the same bytes are the same word
  lemma SameDigits(x: nat, y: nat)
    requires x < MODULUS && y < MODULUS && forall j :: 0 <= j < 4 ==> Digit(x, j) == Digit(y, j)
    ensures x == y
  {
    hide Digit;
    Composed(x);
    Composed(y);
  }

  lemma PutByteIs(m: Rv32.Memory, n: nat, b: int)
    requires 0 <= b < 256
    ensures PutByte(m, n, b).Keys == m.Keys + {n / 4}
    ensures WordAt(PutByte(m, n, b), n / 4) == PutDigit(WordAt(m, n / 4), n % 4, b)
    ensures forall j :: 0 <= j < 4 ==>
      Digit(WordAt(PutByte(m, n, b), n / 4), j) == if j == n % 4 then b else Digit(WordAt(m, n / 4), j)
  {
    hide U, OfInt, PutDigit, Digit;
    WordRange(m, n / 4);
    PutDigitIs(WordAt(m, n / 4), n % 4, b);
    OfIntU(PutDigit(WordAt(m, n / 4), n % 4, b));
  }

  // Only word i of the memory differs, and its bytes are d
  predicate Changed(p: Rv32.Memory, m: Rv32.Memory, i: nat, d: seq<int>)
    requires |d| == 4
  {
    && p.Keys == m.Keys + {i} && (forall k :: k in m && k != i ==> p[k] == m[k])
    && forall j :: 0 <= j < 4 ==> Digit(WordAt(p, i), j) == d[j]
  }

  lemma ChangedUnique(p: Rv32.Memory, q: Rv32.Memory, m: Rv32.Memory, i: nat, d: seq<int>)
    requires |d| == 4 && Changed(p, m, i, d) && Changed(q, m, i, d)
    ensures p == q
  {
    hide Digit, U;
    WordRange(p, i);
    WordRange(q, i);
    SameDigits(WordAt(p, i), WordAt(q, i));
    SameU(p[i], q[i]);
  }

  function DigitsOf(x: nat): (d: seq<int>)
    ensures |d| == 4
  {
    [Digit(x, 0), Digit(x, 1), Digit(x, 2), Digit(x, 3)]
  }

  lemma ChangedPut(p: Rv32.Memory, m: Rv32.Memory, i: nat, d: seq<int>, n: nat, b: int)
    requires |d| == 4 && Changed(p, m, i, d) && n / 4 == i && 0 <= b < 256
    ensures Changed(PutByte(p, n, b), m, i, d[n % 4 := b])
  {
    hide Digit, U, PutDigit, OfInt;
    PutByteIs(p, n, b);
  }

  lemma FirstPut(m: Rv32.Memory, n: nat, b: int)
    requires 0 <= b < 256
    ensures Changed(PutByte(m, n, b), m, n / 4, DigitsOf(WordAt(m, n / 4))[n % 4 := b])
  {
    hide Digit, U, PutDigit, OfInt;
    PutByteIs(m, n, b);
  }

  // The bytes of word x after the n low bytes of v are put at byte k
  function NewDigits(x: nat, k: nat, n: nat, v: nat): (d: seq<int>)
    requires k + n <= 4
    ensures |d| == 4
  {
    seq(4, j requires 0 <= j < 4 => if k <= j < k + n then Digit(v, j - k) else Digit(x, j))
  }

  lemma {:induction false} StoredIs(m: Rv32.Memory, a: nat, n: nat, v: nat)
    requires v < MODULUS && (n == 1 || n == 2 || n == 4) && a % n == 0
    ensures a % 4 + n <= 4 && Changed(Stored(m, a, n, v), m, a / 4, NewDigits(WordAt(m, a / 4), a % 4, n, v))
  {
    hide Changed, WordAt, Stored, Digit, PutByte;
    DigitsAre(v);
    var d := DigitsOf(WordAt(m, a / 4));
    FirstPut(m, a, v % 256);
    var p1, d1 := PutByte(m, a, v % 256), d[a % 4 := v % 256];
    var target := NewDigits(WordAt(m, a / 4), a % 4, n, v);
    if n == 1 {
      Stored1(m, a, v);
      assert target == d1;
    } else {
      ChangedPut(p1, m, a / 4, d1, a + 1, v / 256 % 256);
      var p2, d2 := PutByte(p1, a + 1, v / 256 % 256), d1[(a + 1) % 4 := v / 256 % 256];
      if n == 2 {
        Stored2(m, a, v);
        assert target == d2;
      } else {
        ChangedPut(p2, m, a / 4, d2, a + 2, v / 65536 % 256);
        var p3, d3 := PutByte(p2, a + 2, v / 65536 % 256), d2[2 := v / 65536 % 256];
        ChangedPut(p3, m, a / 4, d3, a + 3, v / 0x100_0000);
        Stored4(m, a, v);
        assert target == d3[3 := v / 0x100_0000];
      }
    }
  }

  lemma Stored1(m: Rv32.Memory, a: nat, v: nat)
    ensures Stored(m, a, 1, v) == PutByte(m, a, v % 256)
  {
    hide PutByte;
  }

  lemma Stored2(m: Rv32.Memory, a: nat, v: nat)
    ensures Stored(m, a, 2, v) == PutByte(PutByte(m, a, v % 256), a + 1, v / 256 % 256)
  {
    hide PutByte;
    Stored1(PutByte(m, a, v % 256), a + 1, v / 256);
  }

  lemma StoredMore(m: Rv32.Memory, a: nat, n: nat, v: nat)
    requires n > 0
    ensures Stored(m, a, n, v) == Stored(PutByte(m, a, v % 256), a + 1, n - 1, v / 256)
  {
    hide PutByte;
  }

  lemma Stored4(m: Rv32.Memory, a: nat, v: nat)
    requires v < MODULUS
    ensures Stored(m, a, 4, v) == PutByte(PutByte(PutByte(PutByte(m, a, v % 256), a + 1, v / 256 % 256),
      a + 2, v / 65536 % 256), a + 3, v / 0x100_0000)
  {
    hide PutByte, Stored;
    var p1 := PutByte(m, a, v % 256);
    var p2 := PutByte(p1, a + 1, v / 256 % 256);
    StoredMore(m, a, 4, v);
    StoredMore(p1, a + 1, 3, v / 256);
    Quotients(v);
    Stored2(p2, a + 2, v / 256 / 256);
    Bytewise(v);
    SmallRemainder(v / 0x100_0000, 256);
  }

  lemma HalfBytes0(w: Word, v: Word)
    ensures Rv32.SelectedByte(Rv32.Merged(w, v, 0, 1), 0) == Rv32.SelectedByte(v, 0)
    ensures Rv32.SelectedByte(Rv32.Merged(w, v, 0, 1), 1) == Rv32.SelectedByte(v, 1)
  {
  }

  lemma HalfBytes2(w: Word, v: Word)
    ensures Rv32.SelectedByte(Rv32.Merged(w, v, 2, 1), 2) == Rv32.SelectedByte(v, 0)
    ensures Rv32.SelectedByte(Rv32.Merged(w, v, 2, 1), 3) == Rv32.SelectedByte(v, 1)
  {
  }

  lemma LowByte(v: Word)
    ensures v & 0xFF == Rv32.SelectedByte(v, 0)
  {
  }

  // The source byte of lane k of the merged word
  lemma MergedByte(w: Word, v: Word, o: Word, f: bv3, k: Word)
    requires (k == 0 || k == 1 || k == 2 || k == 3) && (o == 0 || o == 1 || o == 2 || o == 3)
    requires f == 0 || (f == 1 && (o == 0 || o == 2)) || (f == 2 && o == 0)
    ensures var r := Rv32.SelectedByte(Rv32.Merged(w, v, o, f), k);
      if f == 2 then r == Rv32.SelectedByte(v, k)
      else if k == o then r == Rv32.SelectedByte(v, 0)
      else if f == 1 && k == o + 1 then r == Rv32.SelectedByte(v, 1)
      else r == Rv32.SelectedByte(w, k)
  {
    hide Rv32.SelectedByte, Rv32.StoreData, Rv32.StoreSel, Rv32.MergeLanes;
    if f == 2 {
      Rv32.StoredWord(w, v);
    } else if f == 1 && (k == o || k == o + 1) {
      HalfBytes0(w, v);
      HalfBytes2(w, v);
    } else if k == o {
      Rv32.StoredByte(w, v, o);
      LowByte(v);
    } else {
      Rv32.StoreKeepsOtherBytes(w, v, o, f, k);
    }
  }

  function Funct3Bits(w: Width): bv3 {
    WidthCode(w) as bv3
  }

  function Written(m: Rv32.Memory, adr: Word, v: Word, f: bv3): Rv32.Memory {
    Rv32.WriteWord(m, adr, Rv32.StoreData(v, adr & 3, f), Rv32.StoreSel(adr & 3, f))
  }

  lemma WrittenWord(m: Rv32.Memory, adr: Word, v: Word, f: bv3)
    ensures Written(m, adr, v, f) == m[U(adr) / 4 := Rv32.Merged(Rv32.ReadWord(m, adr), v, adr & 3, f)]
  {
    hide U, Rv32.WordIndex, Rv32.ReadWord, Rv32.StoreData, Rv32.StoreSel, Rv32.MergeLanes;
    IndexU(adr);
  }

  lemma MergedDigit(w: Word, v: Word, o: Word, width: Width, k: Word)
    requires (k == 0 || k == 1 || k == 2 || k == 3) && (o == 0 || o == 1 || o == 2 || o == 3)
    requires (width == B || width == H || width == W4) && U(o) % Size(width) == 0
    ensures U(o) + Size(width) <= 4 && U(k) < 4
    ensures Digit(U(Rv32.Merged(w, v, o, Funct3Bits(width))), U(k)) == NewDigits(U(w), U(o), Size(width), U(v))[U(k)]
  {
    SmallNumbers();
    hide U, Digit, Rv32.Merged, Rv32.SelectedByte;
    MergedByte(w, v, o, Funct3Bits(width), k);
    SelectedU(Rv32.Merged(w, v, o, Funct3Bits(width)), k);
    SelectedU(w, k);
    SelectedU(v, 0);
    SelectedU(v, 1);
    SelectedU(v, k);
  }

  // A store writes the low bytes of its operand to consecutive addresses and nothing else
  lemma {:induction false} StoreIs(m: Rv32.Memory, w: Width, adr: Word, v: Word)
    requires (w == B || w == H || w == W4) && Aligned(w, U(adr))
    ensures Written(m, adr, v, Funct3Bits(w)) == Stored(m, U(adr), Size(w), U(v))
  {
    SmallNumbers();
    hide U, Digit, Rv32.Merged, Rv32.ReadWord, Stored, Written, NewDigits, Funct3Bits;
    var o, word := adr & 3, Rv32.ReadWord(m, adr);
    RangeU(v);
    OffsetU(adr);
    StoredIs(m, U(adr), Size(w), U(v));
    WrittenWord(m, adr, v, Funct3Bits(w));
    ReadU(m, adr);
    MergedDigit(word, v, o, w, 0);
    MergedDigit(word, v, o, w, 1);
    MergedDigit(word, v, o, w, 2);
    MergedDigit(word, v, o, w, 3);
    ChangedUnique(Written(m, adr, v, Funct3Bits(w)), Stored(m, U(adr), Size(w), U(v)), m, U(adr) / 4,
                  NewDigits(WordAt(m, U(adr) / 4), U(adr) % 4, Size(w), U(v)));
  }
}
