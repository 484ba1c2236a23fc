/** The clocked NTT core computes the transforms: every stage drains before the next one reads,
    each stage is one layer on congruence classes, and done rises with the result in RAM1. */
module RtlNttProof {
  import opened Division
  import opened ModQ
  import opened Ring
  import opened Zetas
  import opened NttBlocks
  import opened NttImpl
  import opened InvNttImpl
  import opened RtlMath
  import opened RtlNttCore

  // ----- Addresses -----

  // The layer a stage works on, counted as in the reference code
  function Level(stage: nat, inv: bool): (l: nat)
    requires stage <= 6
    ensures 1 <= l <= BITS
  {
    if inv then stage + 1 else 7 - stage
  }

  function Low(len: nat, c: nat): nat
    requires len > 0
  {
    c / len * (2 * len) + c % len
  }

  // The pair a position belongs to
  function CountOf(len: nat, p: nat): int
    requires len > 0
  {
    p / (2 * len) * len + p % len
  }

  lemma LevelFacts(l: nat)
    requires 1 <= l <= BITS
    ensures Two(BITS - l) * Two(l) == 128 && 1 <= Two(BITS - l) && 2 <= Two(l) <= 128
  {
    TwoProduct(BITS - l, l);
    assert Two(BITS) == 128;
    TwoMonotone(l, BITS);
    TwoMonotone(1, l);
  }

  lemma LowFacts(len: nat, e: nat, c: nat)
    requires len > 0 && e * len == 128 && c < 128
    ensures c / len < e && 0 <= Low(len, c) && Low(len, c) + len < 256
    ensures CountOf(len, Low(len, c)) == c && CountOf(len, Low(len, c) + len) == c
    ensures Low(len, c) / len % 2 == 0 && (Low(len, c) + len) / len % 2 == 1
  {
    hide Low, CountOf;
    var g, j := c / len, c % len;
    assert c == g * len + j;
    LowParts(len, e, c, g, j);
    LowQuotients(len, Low(len, c), g, j);
    CountFrom(len, Low(len, c));
    CountFrom(len, Low(len, c) + len);
    EvenOdd(g);
  }

  lemma LowQuotients(len: nat, low: nat, g: nat, j: nat)
    requires j < len && low == g * (2 * len) + j == (2 * g) * len + j && low + len == (2 * g + 1) * len + j
    ensures low / (2 * len) == (low + len) / (2 * len) == g && low % len == (low + len) % len == j
    ensures low / len == 2 * g && (low + len) / len == 2 * g + 1
  {
    DivUnique(low, 2 * len, g, j);
    DivUnique(low, len, 2 * g, j);
    DivUnique(low + len, 2 * len, g, j + len);
    DivUnique(low + len, len, 2 * g + 1, j);
  }

  lemma EvenOdd(g: nat)
    ensures 2 * g % 2 == 0 && (2 * g + 1) % 2 == 1
  {
  }

  lemma CountFrom(len: nat, p: nat)
    requires len > 0
    ensures CountOf(len, p) == p / (2 * len) * len + p % len
  {
  }

  lemma LowParts(len: nat, e: nat, c: nat, g: nat, j: nat)
    requires len > 0 && e * len == 128 && c == g * len + j < 128 && j < len && g == c / len && j == c % len
    ensures g < e && Low(len, c) == g * (2 * len) + j == (2 * g) * len + j && Low(len, c) + len < 256
    ensures Low(len, c) + len == (2 * g + 1) * len + j
  {
    DivBelow(c, len, e, g, j);
    assert g * (2 * len) == 2 * (g * len) && (2 * g) * len == 2 * (g * len);
    assert (2 * g + 1) * len == (2 * g) * len + len;
  }

  lemma CountFacts(len: nat, e: nat, p: nat)
    requires len > 0 && e * len == 128 && p < 256
    ensures 0 <= CountOf(len, p) < 128
    ensures p == Low(len, CountOf(len, p)) + if p / len % 2 == 0 then 0 else len
  {
    var h := p / len;
    assert p == h * len + p % len;
    CountFactsAt(len, e, p, h, p % len, h / 2, h % 2);
  }

  lemma CountFactsAt(len: nat, e: nat, p: nat, h: nat, j: nat, g: nat, b: nat)
    requires len > 0 && e * len == 128 && p < 256 && p == h * len + j && j < len && h == 2 * g + b && b < 2
    ensures CountOf(len, p) == g * len + j && 0 <= g * len + j < 128
    ensures p == Low(len, g * len + j) + if b == 0 then 0 else len
  {
    CountParts(len, p, h, j, g, b);
    GroupBelow(len, e, p, h, j, g);
    DivUnique(p, len, h, j);
    DivUnique(p, 2 * len, g, b * len + j);
    DivUnique(g * len + j, len, g, j);
  }

  lemma GroupBelow(len: nat, e: nat, p: nat, h: nat, j: nat, g: nat)
    requires len > 0 && e * len == 128 && p < 256 && p == h * len + j && j < len && 2 * g <= h
    ensures 0 <= g * len && g * len + j < 128
  {
    MulNonNeg(g, len);
    DoubleProduct(e, len);
    DivBelow(p, len, 2 * e, h, j);
    MulBelow(g, e, len);
  }

  lemma DoubleProduct(e: nat, len: nat)
    ensures (2 * e) * len == 2 * (e * len)
  {
  }

  lemma MulBelow(g: nat, e: nat, len: nat)
    requires g < e
    ensures g * len <= e * len - len
  {
    MulNonNeg(e - 1 - g, len);
    assert (e - 1 - g) * len == e * len - len - g * len;
  }

  lemma CountParts(len: nat, p: nat, h: nat, j: nat, g: nat, b: nat)
    requires len > 0 && p == h * len + j && h == 2 * g + b && b < 2 && j < len
    ensures p == g * (2 * len) + (b * len + j) && b * len == (if b == 0 then 0 else len)
        && g * (2 * len) == 2 * (g * len)
  {
    assert h * len == 2 * (g * len) + b * len;
  }

  lemma GroupFacts(len: nat, e: nat, c: nat)
    requires len > 0 && e * len == 128 && c < 128 && e > 0
    ensures c * e / 128 == c / len
  {
    var g, j := c / len, c % len;
    assert c == g * len + j;
    assert c * e == g * (len * e) + j * e;
    assert 0 <= j * e && (len - j) * e > 0 && len * e == 128;
    assert (len - j) * e == len * e - j * e;
    DivUnique(c * e, 128, g, j * e);
  }

  // What the address generator puts out, for every stage and count
  lemma Addresses(stage: nat, inv: bool, c: nat)
    requires stage <= 6 && c < 128
    ensures var l := Level(stage, inv);
      var len, k0 := Two(l), Two(BITS - l);
      && 0 <= Low(len, c) && c / len < k0 && k0 * len == 128
      && AddrA(stage, inv, c) == Low(len, c) && AddrB(stage, inv, c) == Low(len, c) + len < 256
      && TwiddleAddr(stage, inv, c) == if inv then 2 * k0 - 1 - c / len else k0 + c / len
  {
    hide Two, Low;
    var l := Level(stage, inv);
    var len, e := Two(l), Two(BITS - l);
    LevelFacts(l);
    LowFacts(len, e, c);
    LenIs(stage, inv);
    GroupFacts(len, e, c);
    AddressOf(stage, inv, c, len, e);
  }

  lemma BitsIs()
    ensures BITS == 7
  {
  }

  lemma LenIs(stage: nat, inv: bool)
    requires stage <= 6
    ensures var l := Level(stage, inv);
      StageEff(stage, inv) == BITS - l && Len(stage, inv) == Two(l)
  {
    hide Two;
    var l := Level(stage, inv);
    LevelFacts(l);
    BitsIs();
    DivUnique(128, Two(BITS - l), Two(l), 0);
  }

  lemma AddressOf(stage: nat, inv: bool, c: nat, len: nat, e: nat)
    requires stage <= 6 && c < 128 && len > 0 && len == Len(stage, inv) && e == Two(StageEff(stage, inv)) <= 64
    requires c * e / 128 == c / len < e && 0 <= Low(len, c) && Low(len, c) + len < 256
    ensures AddrA(stage, inv, c) == Low(len, c) && AddrB(stage, inv, c) == Low(len, c) + len
    ensures TwiddleAddr(stage, inv, c) == if inv then 2 * e - 1 - c / len else e + c / len
  {
    hide Two, Len;
    assert Group(stage, inv, c) == c / len;
    var low := Low(len, c);
    assert low == c / len * (2 * len) + c % len;
    assert low % 256 == low && (low + len) % 256 == low + len;
  }

  // ----- One stage of the controller -----

  // mode and direction of the run, the stage, and the words it reads
  datatype Stage = Stage(mode: bool, inv: bool, index: nat, src: Ram)

  predicate StageOk(x: Stage) {
    x.index <= 6
  }

  function PairA(x: Stage, k: nat): (a: nat)
    requires StageOk(x)
    ensures a < 256
  {
    AddrA(x.index, x.inv, k)
  }

  function PairB(x: Stage, k: nat): (b: nat)
    requires StageOk(x)
    ensures b < 256
  {
    AddrB(x.index, x.inv, k)
  }

  // The butterfly operands of count k
  function Operand(x: Stage, k: nat): BfIn
    requires StageOk(x)
  {
    BfIn(x.mode, x.src[PairA(x, k)], x.src[PairB(x, k)], Rom(TwiddleAddr(x.index, x.inv, k)))
  }

  function SrcRam(c: Core): Ram {
    if EvenStage(c) then c.ram0 else c.ram1
  }

  function DstRam(c: Core): Ram {
    if EvenStage(c) then c.ram1 else c.ram0
  }

  function SrcRaw(c: Core): Pair {
    if EvenStage(c) then c.raw0 else c.raw1
  }

  function SrcReg(c: Core): Pair {
    if EvenStage(c) then c.reg0 else c.reg1
  }

  // Slot d of the delay line belongs to count k, and the data of count k is where it should be:
  // in the RAM output, the read register, or depth d - 1 of the butterfly
  predicate SlotHolds(c: Core, x: Stage, d: nat, k: nat)
    requires StageOk(x) && d < 10
  {
    var i := Operand(x, k);
    && c.slots[d].addrA == PairA(x, k) && c.slots[d].addrB == PairB(x, k)
    && (d == 0 ==> SrcRaw(c) == Pair(i.a, i.b) && c.zetaRaw == i.zeta)
    && (d == 1 ==> SrcReg(c) == Pair(i.a, i.b) && c.zeta == i.zeta)
    && (d >= 2 ==> B.HoldsAt(c.bf, d - 1, i))
  }

  // Count k has been written back
  predicate Written(r: Ram, x: Stage, k: nat)
    requires StageOk(x)
  {
    r[PairA(x, k)] == OutA(Operand(x, k)) && r[PairB(x, k)] == OutB(Operand(x, k))
  }

  function WarmUp(x: Stage): nat {
    if x.inv then 4 else 3
  }

  function Live(e: int, d: nat): bool {
    0 <= e - 1 - d < 128
  }

  // The controller n clock edges into the stage, e = n - WarmUp(x) edges after the first count
  predicate AtControl(c: Core, x: Stage, n: nat) {
    var w := WarmUp(x);
    var e := n - w;
    && StageOk(x) && Valid(c) && c.stage == x.index && !c.done && n < w + 139
    && c.fsm == (if e < 0 then WARM else if e < 129 then CALC else PREP)
    && (e < 0 ==> c.warm == n)
    && (0 <= e < 129 ==> c.cnt == e)
  }

  // Count e - 1 - d is in slot d
  ghost predicate AtSlots(c: Core, x: Stage, e: int)
    requires StageOk(x)
  {
    && (forall d :: 0 <= d < 10 ==> c.slots[d].we == Live(e, d))
    && (forall d :: 0 <= d < 10 && Live(e, d) ==> SlotHolds(c, x, d, e - 1 - d))
  }

  ghost predicate AtWritten(c: Core, x: Stage, e: int)
    requires StageOk(x)
  {
    SrcRam(c) == x.src && forall k :: 0 <= k < 128 && k < e - 10 ==> Written(DstRam(c), x, k)
  }

  ghost predicate At(c: Core, x: Stage, n: nat) {
    AtControl(c, x, n) && AtSlots(c, x, n - WarmUp(x)) && AtWritten(c, x, n - WarmUp(x))
  }

  // Pins during a run: no reset, direction held
  predicate Held(p: Pins, x: Stage) {
    ValidPins(p) && !p.rst && p.mode == x.mode && Inverse(p) == x.inv
  }

  lemma PendingIs(c: Core, e: int)
    requires forall d :: 0 <= d < 10 ==> c.slots[d].we == Live(e, d)
    ensures 129 <= e <= 138 ==> (AnyPending(c.slots) <==> e < 138)
  {
    if 129 <= e < 138 {
      assert c.slots[9].we;
    }
  }

  lemma ControlStep(c: Core, x: Stage, n: nat, p: Pins)
    requires At(c, x, n) && Held(p, x) && n + 1 < WarmUp(x) + 139
    ensures AtControl(Tick(c, p), x, n + 1)
  {
    hide SlotHolds, AtWritten, AnyPending, Tick, RamNext, RamRead, Rom, RomAddr, BfInput, NewSlot, Ram0PortA,
      Ram0PortB, Ram1PortA, Ram1PortB, B.Step, Valid;
    TickFields(c, p);
    TickValid(c, p);
    PendingIs(c, n - WarmUp(x));
  }

  lemma SourceKept(c: Core, x: Stage, p: Pins)
    requires StageOk(x) && Valid(c) && c.stage == x.index && c.fsm != IDLE && Held(p, x)
    ensures EvenStage(c) ==> RamNext(c.ram0, Ram0PortA(c, p), Ram0PortB(c, p)) == c.ram0
    ensures !EvenStage(c) ==> RamNext(c.ram1, Ram1PortA(c, p), Ram1PortB(c, p)) == c.ram1
  {
    hide AddrA, AddrB;
  }

  // The ports of the RAM being read carry the issued addresses
  lemma SourcePorts(c: Core, p: Pins)
    requires Valid(c) && ValidPins(p) && c.fsm != IDLE
    ensures EvenStage(c) ==>
      (RamRead(c.ram0, Ram0PortA(c, p), Ram0PortB(c, p)) == Pair(c.ram0[IssuedA(c, p)], c.ram0[IssuedB(c, p)]))
    ensures !EvenStage(c) ==>
      (RamRead(c.ram1, Ram1PortA(c, p), Ram1PortB(c, p)) == Pair(c.ram1[IssuedA(c, p)], c.ram1[IssuedB(c, p)]))
  {
    hide IssuedA, IssuedB;
  }

  lemma FirstSlot(c: Core, x: Stage, n: nat, p: Pins)
    requires At(c, x, n) && Held(p, x) && n + 1 < WarmUp(x) + 139
    ensures var m, e := Tick(c, p), n + 1 - WarmUp(x);
      m.slots[0].we == Live(e, 0) && (m.stage == c.stage && Live(e, 0) ==> SlotHolds(m, x, 0, e - 1))
  {
    hide SlotHolds, Written, AddrA, AddrB, TwiddleAddr, AnyPending, Tick, Rom, RamRead, RamNext, Ram0PortA, Ram0PortB,
      Ram1PortA, Ram1PortB, Control, B.Step, BfInput;
    TickFields(c, p);
    SourcePorts(c, p);
    var m, e := Tick(c, p), n + 1 - WarmUp(x);
    assert m.slots[0] == NewSlot(c, p);
    if Live(e, 0) && m.stage == c.stage {
      assert c.cnt % 128 == e - 1;
      FirstSlotHolds(c, x, e - 1, p, m);
    }
  }

  lemma FirstSlotHolds(c: Core, x: Stage, k: nat, p: Pins, m: Core)
    requires StageOk(x) && Valid(c) && c.stage == x.index == m.stage && SrcRam(c) == x.src && Held(p, x)
        && c.fsm == CALC
    requires k == c.cnt < 128
    requires m.slots[0] == NewSlot(c, p) && m.zetaRaw == Rom(RomAddr(c, p))
    requires SrcRaw(m) == Pair(x.src[IssuedA(c, p)], x.src[IssuedB(c, p)])
    ensures SlotHolds(m, x, 0, k)
  {
    hide AddrA, AddrB, TwiddleAddr, Rom;
  }

  // Slot d moves on to slot d + 1 together with its data
  lemma NextSlot(c: Core, x: Stage, d: nat, k: nat, p: Pins)
    requires StageOk(x) && Valid(c) && c.stage == x.index && Held(p, x) && d < 9 && SlotHolds(c, x, d, k)
    requires Tick(c, p).stage == c.stage
    ensures SlotHolds(Tick(c, p), x, d + 1, k)
  {
    hide AddrA, AddrB, TwiddleAddr, Tick, Rom, RamRead, RamNext, Ram0PortA, Ram0PortB, Ram1PortA, Ram1PortB, Control,
      B.Step, RomAddr, NewSlot, B.HoldsAt;
    TickFields(c, p);
    var m, i := Tick(c, p), Operand(x, k);
    assert m.slots[d + 1] == c.slots[d];
    if d == 1 {
      assert BfInput(c, p) == i;
      B.Enters(c.bf, i);
    } else if d >= 2 {
      B.Advances(c.bf, d - 1, i, BfInput(c, p));
    }
  }

  // Two counts never share an address
  lemma Disjoint(x: Stage, j: nat, k: nat)
    requires StageOk(x) && j < 128 && k < 128
    ensures PairA(x, j) != PairB(x, k)
    ensures j != k ==> PairA(x, j) != PairA(x, k) && PairB(x, j) != PairB(x, k)
  {
    hide AddrA, AddrB, Two, Low, CountOf;
    var l := Level(x.index, x.inv);
    LevelFacts(l);
    Addresses(x.index, x.inv, j);
    Addresses(x.index, x.inv, k);
    LowFacts(Two(l), Two(BITS - l), j);
    LowFacts(Two(l), Two(BITS - l), k);
  }

  function WriteBack(r: Ram, x: Stage, k: nat): Ram
    requires StageOk(x)
  {
    r[PairA(x, k) := OutA(Operand(x, k))][PairB(x, k) := OutB(Operand(x, k))]
  }

  lemma WriteBackKeeps(r: Ram, x: Stage, k: nat, j: nat)
    requires StageOk(x) && j < 128 && k < 128 && (j == k || Written(r, x, j))
    ensures Written(WriteBack(r, x, k), x, j)
  {
    hide PairA, PairB, Operand, OutA, OutB;
    Disjoint(x, j, k);
    Disjoint(x, k, j);
  }

  // The last slot writes its pair
  lemma LastSlotWrites(c: Core, x: Stage, k: nat, p: Pins)
    requires StageOk(x) && Valid(c) && c.stage == x.index && c.fsm != IDLE && Held(p, x)
    requires c.slots[9].we && SlotHolds(c, x, 9, k)
    ensures EvenStage(c) ==> RamNext(c.ram1, Ram1PortA(c, p), Ram1PortB(c, p)) == WriteBack(c.ram1, x, k)
    ensures !EvenStage(c) ==> RamNext(c.ram0, Ram0PortA(c, p), Ram0PortB(c, p)) == WriteBack(c.ram0, x, k)
  {
    hide AddrA, AddrB, TwiddleAddr, Rom, OutA, OutB, B.HoldsAt, IssuedA, IssuedB;
    B.Leaves(c.bf, Operand(x, k));
  }

  lemma NoWrite(c: Core, x: Stage, p: Pins)
    requires StageOk(x) && Valid(c) && c.stage == x.index && c.fsm != IDLE && Held(p, x) && !c.slots[9].we
    ensures EvenStage(c) ==> RamNext(c.ram1, Ram1PortA(c, p), Ram1PortB(c, p)) == c.ram1
    ensures !EvenStage(c) ==> RamNext(c.ram0, Ram0PortA(c, p), Ram0PortB(c, p)) == c.ram0
  {
    hide AddrA, AddrB, IssuedA, IssuedB;
  }

  lemma SlotsStep(c: Core, x: Stage, n: nat, p: Pins)
    requires At(c, x, n) && Held(p, x) && n + 1 < WarmUp(x) + 139 && Tick(c, p).stage == c.stage
    ensures AtSlots(Tick(c, p), x, n + 1 - WarmUp(x))
  {
    hide SlotHolds, Written, Tick, Control, RamNext, RamRead, Rom, RomAddr, BfInput, NewSlot, Ram0PortA, Ram0PortB,
      Ram1PortA, Ram1PortB, B.Step;
    var m, e := Tick(c, p), n + 1 - WarmUp(x);
    TickFields(c, p);
    forall d | 0 <= d < 10
      ensures m.slots[d].we == Live(e, d) && (Live(e, d) ==> SlotHolds(m, x, d, e - 1 - d))
    {
      if d == 0 {
        FirstSlot(c, x, n, p);
      } else {
        assert m.slots[d] == c.slots[d - 1];
        if Live(e, d) {
          NextSlot(c, x, d - 1, e - 1 - d, p);
        }
      }
    }
  }

  // The RAMs after an edge of a stage
  lemma RamsStep(c: Core, x: Stage, n: nat, p: Pins)
    requires At(c, x, n) && Held(p, x) && Tick(c, p).stage == c.stage
    ensures var m, e := Tick(c, p), n + 1 - WarmUp(x);
      && SrcRam(m) == x.src
      && DstRam(m) == if 0 <= e - 11 < 128 then WriteBack(DstRam(c), x, e - 11) else DstRam(c)
  {
    hide SlotHolds, Written, Tick, Control, RamNext, RamRead, Rom, RomAddr, BfInput, NewSlot, Ram0PortA, Ram0PortB,
      Ram1PortA, Ram1PortB, B.Step, WriteBack;
    TickFields(c, p);
    SourceKept(c, x, p);
    if c.slots[9].we {
      LastSlotWrites(c, x, n - WarmUp(x) - 10, p);
    } else {
      NoWrite(c, x, p);
    }
  }

  lemma WrittenStep(c: Core, x: Stage, n: nat, p: Pins)
    requires At(c, x, n) && Held(p, x) && Tick(c, p).stage == c.stage
    ensures AtWritten(Tick(c, p), x, n + 1 - WarmUp(x))
  {
    hide SlotHolds, Written, Tick, WriteBack, SrcRam, DstRam;
    var m, e := Tick(c, p), n + 1 - WarmUp(x);
    RamsStep(c, x, n, p);
    forall k | 0 <= k < 128 && k < e - 10 ensures Written(DstRam(m), x, k) {
      if 0 <= e - 11 < 128 {
        WriteBackKeeps(DstRam(c), x, e - 11, k);
      }
    }
  }

  lemma EdgeInStage(c: Core, x: Stage, n: nat, p: Pins)
    requires At(c, x, n) && Held(p, x) && n + 1 < WarmUp(x) + 139
    ensures At(Tick(c, p), x, n + 1)
  {
    hide AtSlots, AtWritten, Tick, Valid;
    ControlStep(c, x, n, p);
    SlotsStep(c, x, n, p);
    WrittenStep(c, x, n, p);
  }

  // ----- One stage is one layer -----

  ghost predicate StageDone(x: Stage, r: Ram) {
    StageOk(x) && forall k :: 0 <= k < 128 ==> Written(r, x, k)
  }

  // The pipeline is empty and the controller idle; f is in RAM0 or RAM1
  ghost predicate Drained(c: Core) {
    Valid(c) && forall d :: 0 <= d < 10 ==> !c.slots[d].we
  }

  lemma StageEnds(c: Core, x: Stage, p: Pins)
    requires At(c, x, WarmUp(x) + 138) && Held(p, x)
    ensures StageDone(x, DstRam(c))
    ensures Drained(Tick(c, p)) && !Tick(c, p).done
    ensures x.index == 6 ==> Tick(c, p).fsm == DONE && Tick(c, p).ram1 == DstRam(c)
    ensures x.index < 6 ==> At(Tick(c, p), Stage(x.mode, x.inv, x.index + 1, DstRam(c)), 0)
  {
    hide SlotHolds, Written, Tick, RamNext, RamRead, Rom, RomAddr, BfInput, Ram0PortA, Ram0PortB, Ram1PortA,
      Ram1PortB, B.Step, AnyPending, IssuedA, IssuedB;
    var m := Tick(c, p);
    TickFields(c, p);
    TickValid(c, p);
    PendingIs(c, 138);
    SourceKept(c, x, p);
    NoWrite(c, x, p);
    assert m.slots[0] == NewSlot(c, p) && forall d :: 1 <= d < 10 ==> m.slots[d] == c.slots[d - 1];
  }

  // The words a stage leaves, position by position
  function LayerWord(x: Stage, p: nat): int
    requires StageOk(x)
  {
    var len := Two(Level(x.index, x.inv));
    var k := CountOf(len, p);
    if k < 0 then 0 else if p / len % 2 == 0 then OutA(Operand(x, k)) else OutB(Operand(x, k))
  }

  function HwLayer(x: Stage): Ram
    requires StageOk(x)
  {
    seq(256, p requires 0 <= p < 256 => LayerWord(x, p))
  }

  lemma WrittenWord(x: Stage, r: Ram, p: nat)
    requires StageDone(x, r) && p < 256
    ensures r[p] == LayerWord(x, p)
  {
    hide AddrA, AddrB, Two, Low, CountOf, Operand, OutA, OutB;
    var l := Level(x.index, x.inv);
    var len, e := Two(l), Two(BITS - l);
    LevelFacts(l);
    CountFacts(len, e, p);
    var k := CountOf(len, p);
    Addresses(x.index, x.inv, k);
    assert Written(r, x, k);
  }

  lemma StageDoneIs(x: Stage, r: Ram)
    requires StageDone(x, r)
    ensures r == HwLayer(x)
  {
    hide LayerWord, Written;
    forall p | 0 <= p < 256 ensures r[p] == HwLayer(x)[p] {
      WrittenWord(x, r, p);
    }
  }

  // The contents after the first i stages
  function HwStages(mode: bool, inv: bool, f: Ram, i: nat): Ram
    requires i <= 7
  {
    if i == 0 then f else HwLayer(Stage(mode, inv, i - 1, HwStages(mode, inv, f, i - 1)))
  }

  // ----- Whole runs -----

  function Run(c: Core, ps: seq<Pins>): (d: Core)
    requires Valid(c) && forall i :: 0 <= i < |ps| ==> ValidPins(ps[i])
    ensures Valid(d)
  {
    hide Tick;
    if ps == [] then c
    else
      var q := Run(c, ps[..|ps| - 1]);
      TickValid(q, ps[|ps| - 1]);
      Tick(q, ps[|ps| - 1])
  }

  // No reset, the direction pins do not change, and start is high at the first edge
  predicate Driven(ps: seq<Pins>, mode: bool, inv: bool) {
    |ps| > 0 && ps[0].start && forall i :: 0 <= i < |ps| ==> Held(ps[i], Stage(mode, inv, 0, seq(256, j => 0)))
  }

  function StageLength(inv: bool): nat {
    if inv then 143 else 142
  }

  ghost predicate Ready(c: Core) {
    Drained(c) && c.fsm == IDLE
  }

  lemma StartEdge(c: Core, p: Pins, mode: bool, inv: bool)
    requires Ready(c) && p.start && Held(p, Stage(mode, inv, 0, c.ram0))
    ensures At(Tick(c, p), Stage(mode, inv, 0, Tick(c, p).ram0), 0)
  {
    hide SlotHolds, Written, RamNext, RamRead, Rom, RomAddr, BfInput, Ram0PortA, Ram0PortB, Ram1PortA, Ram1PortB,
      B.Step, AnyPending, IssuedA, IssuedB, Tick;
    TickFields(c, p);
    TickValid(c, p);
    var m := Tick(c, p);
    assert m.slots[0] == NewSlot(c, p) && forall d :: 1 <= d < 10 ==> m.slots[d] == c.slots[d - 1];
  }

  // Where the core is after each edge of a run
  lemma {:induction false} Timeline(c: Core, ps: seq<Pins>, mode: bool, inv: bool, i: nat, n: nat)
    requires Ready(c) && Driven(ps, mode, inv) && i < 7 && n < StageLength(inv)
    requires |ps| == 1 + i * StageLength(inv) + n
    ensures var f := Tick(c, ps[0]).ram0;
      At(Run(c, ps), Stage(mode, inv, i, HwStages(mode, inv, f, i)), n)
    decreases i, n
  {
    hide At, Tick, HwLayer, Valid;
    var last := |ps| - 1;
    var before := ps[..last];
    if n > 0 {
      assert before[0] == ps[0];
      Timeline(c, before, mode, inv, i, n - 1);
      EdgeInStage(Run(c, before), Stage(mode, inv, i, HwStages(mode, inv, Tick(c, ps[0]).ram0, i)), n - 1, ps[last]);
    } else if i > 0 {
      assert before[0] == ps[0];
      assert i * StageLength(inv) == (i - 1) * StageLength(inv) + StageLength(inv);
      Timeline(c, before, mode, inv, i - 1, StageLength(inv) - 1);
      var x := Stage(mode, inv, i - 1, HwStages(mode, inv, Tick(c, ps[0]).ram0, i - 1));
      StageEnds(Run(c, before), x, ps[last]);
      StageDoneIs(x, DstRam(Run(c, before)));
    } else {
      assert before == [];
      StartEdge(c, ps[0], mode, inv);
    }
  }

  lemma DoneEdge(c: Core, p: Pins)
    requires Drained(c) && c.fsm == DONE && ValidPins(p) && !p.rst
    ensures var m := Tick(c, p);
      Ready(m) && m.done && m.ram1 == c.ram1 && m.lastRam1
  {
    hide RamRead, Rom, RomAddr, BfInput, B.Step, AnyPending, IssuedA, IssuedB, Tick;
    TickFields(c, p);
    TickValid(c, p);
    LastWritten(c, p);
    var m := Tick(c, p);
    assert m.slots[0] == NewSlot(c, p) && forall d :: 1 <= d < 10 ==> m.slots[d] == c.slots[d - 1];
  }

  lemma LastWritten(c: Core, p: Pins)
    requires Valid(c) && ValidPins(p) && !p.rst && c.fsm == DONE
    ensures Tick(c, p).lastRam1
  {
    hide Control, RamNext, RamRead, Rom, RomAddr, BfInput, NewSlot, Ram0PortA, Ram0PortB, Ram1PortA, Ram1PortB,
      B.Step;
  }

  lemma {:induction false} RunReachesDone(c: Core, ps: seq<Pins>, mode: bool, inv: bool)
    requires Ready(c) && Driven(ps, mode, inv) && |ps| == 1 + 7 * StageLength(inv)
    ensures var d := Run(c, ps);
      Drained(d) && d.fsm == DONE && !d.done && d.ram1 == HwStages(mode, inv, Tick(c, ps[0]).ram0, 7)
  {
    hide At, Tick, HwLayer, Valid, StageDone;
    var last := |ps| - 1;
    var before := ps[..last];
    assert before[0] == ps[0];
    Timeline(c, before, mode, inv, 6, StageLength(inv) - 1);
    var x := Stage(mode, inv, 6, HwStages(mode, inv, Tick(c, ps[0]).ram0, 6));
    StageEnds(Run(c, before), x, ps[last]);
    StageDoneIs(x, DstRam(Run(c, before)));
  }

  // A run takes exactly 2 + 7 * 142 edges forward, 2 + 7 * 143 inverse; done rises at the last one
  // and RAM1 then holds the seven layers of what RAM0 held at the start
  lemma {:induction false} RunEnds(c: Core, ps: seq<Pins>, mode: bool, inv: bool)
    requires Ready(c) && Driven(ps, mode, inv) && |ps| == 2 + 7 * StageLength(inv)
    ensures var d := Run(c, ps);
      Ready(d) && d.done && d.lastRam1 && d.ram1 == HwStages(mode, inv, Tick(c, ps[0]).ram0, 7)
  {
    hide Tick, HwLayer, Valid, HwStages;
    var last := |ps| - 1;
    var before := ps[..last];
    assert before[0] == ps[0];
    RunReachesDone(c, before, mode, inv);
    DoneEdge(Run(c, before), ps[last]);
  }

  // done stays low until then
  lemma {:induction false} NotDoneBefore(c: Core, ps: seq<Pins>, mode: bool, inv: bool)
    requires Ready(c) && Driven(ps, mode, inv) && |ps| <= 1 + 7 * StageLength(inv)
    ensures !Run(c, ps).done
  {
    hide Tick, HwLayer, Valid, HwStages, AtSlots, AtWritten;
    if |ps| == 1 + 7 * StageLength(inv) {
      RunReachesDone(c, ps, mode, inv);
    } else {
      var i, n := (|ps| - 1) / StageLength(inv), (|ps| - 1) % StageLength(inv);
      Timeline(c, ps, mode, inv, i, n);
    }
  }

  // ----- The layers are the transforms -----

  ghost predicate InRange(s: Poly) {
    forall i :: 0 <= i < |s| ==> Wide(s[i])
  }

  ghost predicate Reduced(s: Poly) {
    forall i :: 0 <= i < |s| ==> 0 <= s[i] <= Q
  }

  lemma {:induction false} SplitLayerAt(s: Poly, l: nat, k: nat, m: nat, g: nat, j: nat, p: nat)
    requires Blocks(s, l, k, m) && g < m && j < Two(l) && p == g * Two(l + 1) + j && Two(l + 1) == 2 * Two(l)
    ensures p + Two(l) < |s|
    ensures SplitLayer(s, l, k, m)[p] == s[p] + Root(k + g) * s[p + Two(l)]
    ensures SplitLayer(s, l, k, m)[p + Two(l)] == s[p] + -Root(k + g) * s[p + Two(l)]
    decreases m
  {
    hide Root, Split, Blocks, Two, SplitLayer;
    var n := Two(l + 1);
    SplitLayerUnfold(s, l, k, m);
    if g == 0 {
      assert p == j;
      SplitLayerFirst(s, l, k, m, j);
    } else {
      BlockBefore(g, n, j, p);
      SplitLayerAt(s[n..], l, k + 1, m - 1, g - 1, j, p - n);
      SplitLayerLater(s, l, k, m, p);
      SplitLayerLater(s, l, k, m, p + Two(l));
    }
  }

  lemma BlockBefore(g: nat, n: nat, j: nat, p: nat)
    requires g > 0 && p == g * n + j
    ensures p >= n && p - n == (g - 1) * n + j
  {
    MulNonNeg(g - 1, n);
  }

  lemma SplitLayerFirst(s: Poly, l: nat, k: nat, m: nat, j: nat)
    requires Blocks(s, l, k, m) && m > 0 && j < Two(l)
    ensures j + Two(l) < |s|
    ensures SplitLayer(s, l, k, m)[j] == s[j] + Root(k) * s[j + Two(l)]
    ensures SplitLayer(s, l, k, m)[j + Two(l)] == s[j] + -Root(k) * s[j + Two(l)]
  {
    hide Root, Split, Blocks, Two, SplitLayer;
    SplitLayerUnfold(s, l, k, m);
    SplitAt(s[..Two(l + 1)], Root(k), j);
    SplitAt(s[..Two(l + 1)], -Root(k), j);
  }

  lemma SplitLayerLater(s: Poly, l: nat, k: nat, m: nat, p: nat)
    requires Blocks(s, l, k, m) && m > 0 && Two(l + 1) <= p < |s|
    ensures Blocks(s[Two(l + 1)..], l, k + 1, m - 1)
    ensures SplitLayer(s, l, k, m)[p] == SplitLayer(s[Two(l + 1)..], l, k + 1, m - 1)[p - Two(l + 1)]
  {
    hide Root, Split, Blocks, Two, SplitLayer;
    SplitLayerUnfold(s, l, k, m);
  }

  lemma SplitAt(b: Poly, y: int, j: nat)
    requires |b| % 2 == 0 && j < |b| / 2
    ensures |Split(b, y)| == |b| / 2 && Split(b, y)[j] == b[j] + y * b[j + |b| / 2]
  {
  }

  lemma {:induction false} MergeLayerAt(s: Poly, l: nat, k: nat, m: nat, g: nat, j: nat, p: nat)
    requires Blocks(s, l, k, m) && l > 0 && g < m && j < Two(l) && p == g * Two(l + 1) + j && Two(l + 1) == 2 * Two(l)
    requires 1 <= k + g < 128
    ensures p + Two(l) < |s|
    ensures MergeLayer(s, l, k, m)[p] == s[p] + s[p + Two(l)]
    ensures MergeLayer(s, l, k, m)[p + Two(l)] == Root(Mirror(k + g)) * (s[p + Two(l)] - s[p])
    decreases m
  {
    hide Root, Mirror, Blocks, MergeLayer, MergeBlock, Two;
    BlocksSplit(s, l, k, m);
    var n := Two(l + 1);
    assert s == s[..n] + s[n..];
    MergeLayerCons(s[..n], s[n..], l, k, m);
    if g == 0 {
      MergeBlockAt(s[..n], k, j);
    } else {
      assert p - n == (g - 1) * n + j;
      MulNonNeg(g - 1, n);
      MergeLayerAt(s[n..], l, k + 1, m - 1, g - 1, j, p - n);
    }
  }

  lemma MergeBlockAt(b: Poly, k: nat, j: nat)
    requires |b| % 2 == 0 && 1 <= k < 128 && j < |b| / 2
    ensures MergeBlock(b, k)[j] == b[j] + b[j + |b| / 2]
    ensures MergeBlock(b, k)[j + |b| / 2] == Root(Mirror(k)) * (b[j + |b| / 2] - b[j])
  {
    hide Root, Mirror;
  }

  lemma ReducedInRange(s: Poly)
    requires Reduced(s)
    ensures InRange(s)
  {
  }

  // Count c of the stage is pair j of block g, at address a
  predicate WordAt(x: Stage, c: nat, g: nat, j: nat, a: nat)
    requires StageOk(x)
  {
    var l := Level(x.index, x.inv);
    var k0 := Two(BITS - l);
    && g < k0 && j < Two(l) && a == g * (2 * Two(l)) + j && a + Two(l) < 256
    && PairA(x, c) == a && PairB(x, c) == a + Two(l)
    && TwiddleAddr(x.index, x.inv, c) == (if x.inv then 2 * k0 - 1 - g else k0 + g)
  }

  lemma WordShape(x: Stage, p: nat) returns (c: nat, g: nat, j: nat, a: nat)
    requires StageOk(x) && p < 256
    ensures WordAt(x, c, g, j, a)
    ensures var len := Two(Level(x.index, x.inv));
      (p == a && HwLayer(x)[p] == OutA(Operand(x, c))) || (p == a + len && HwLayer(x)[p] == OutB(Operand(x, c)))
  {
    hide AddrA, AddrB, TwiddleAddr, Two, CountOf, OutA, OutB, Operand, HwLayer;
    var l := Level(x.index, x.inv);
    var len := Two(l);
    LevelFacts(l);
    CountFacts(len, Two(BITS - l), p);
    c := CountOf(len, p);
    g, j, a := c / len, c % len, Low(len, c);
    Addresses(x.index, x.inv, c);
    HwWord(x, p);
  }

  lemma LevelBlocks(s: Poly, l: nat)
    requires |s| == 256 && 1 <= l <= BITS
    ensures Blocks(s, l, Two(BITS - l), Two(BITS - l)) && Two(l + 1) == 2 * Two(l) && Two(BITS - l) <= 64
  {
    WholeLayer(s, l);
    BitsIs();
    TwoMonotone(BITS - l, 6);
    assert Two(6) == 64;
  }

  lemma HwWord(x: Stage, p: nat)
    requires StageOk(x) && p < 256 && CountOf(Two(Level(x.index, x.inv)), p) >= 0
    ensures var len := Two(Level(x.index, x.inv));
      HwLayer(x)[p] == if p / len % 2 == 0 then OutA(Operand(x, CountOf(len, p))) else OutB(Operand(x, CountOf(len, p)))
  {
    hide Two, CountOf, OutA, OutB, Operand;
  }

  lemma ForwardPair(x: Stage, c: nat, k: nat, u: int, v: int, lo: int, hi: int)
    requires StageOk(x) && Operand(x, c) == BfIn(false, u, v, Rom(k)) && k < 128 && Wide(u) && Wide(v)
    requires lo == u + Root(k) * v && hi == u + -Root(k) * v
    ensures 0 <= OutA(Operand(x, c)) <= Q && Cong(OutA(Operand(x, c)), lo)
    ensures 0 <= OutB(Operand(x, c)) <= Q && Cong(OutB(Operand(x, c)), hi)
  {
    hide *;
    ForwardButterfly(k, u, v);
  }

  // t is the ring-level layer of the stage
  ghost predicate IsForward(x: Stage, t: Poly)
    requires StageOk(x)
  {
    var l := Level(x.index, false);
    var k0 := Two(BITS - l);
    l > 0 && Blocks(x.src, l, k0, k0) && t == SplitLayer(x.src, l, k0, k0)
  }

  lemma {:induction false} ForwardWord(x: Stage, p: nat, t: Poly)
    requires StageOk(x) && !x.mode && !x.inv && InRange(x.src) && p < 256 && IsForward(x, t) && |t| == 256
    ensures 0 <= HwLayer(x)[p] <= Q && Cong(HwLayer(x)[p], t[p])
  {
    hide WordAt, Two, IsForward, Cong, Operand, OutA, OutB, HwLayer, InRange;
    var c, g, j, a := WordShape(x, p);
    ForwardWordAt(x, c, g, j, a, t, Two(Level(x.index, false)));
  }

  lemma {:induction false} ForwardWordAt(x: Stage, c: nat, g: nat, j: nat, a: nat, t: Poly, len: nat)
    requires StageOk(x) && !x.mode && !x.inv && InRange(x.src) && WordAt(x, c, g, j, a) && IsForward(x, t) && |t| == 256
    requires len == Two(Level(x.index, false))
    ensures a + len < 256
    ensures 0 <= OutA(Operand(x, c)) <= Q && Cong(OutA(Operand(x, c)), t[a])
    ensures 0 <= OutB(Operand(x, c)) <= Q && Cong(OutB(Operand(x, c)), t[a + len])
  {
    hide AddrA, AddrB, TwiddleAddr, Two, Rom, Root, OutA, OutB, Cong, SplitLayer, Blocks;
    var l := Level(x.index, false);
    LevelBlocks(x.src, l);
    SplitLayerAt(x.src, l, Two(BITS - l), Two(BITS - l), g, j, a);
    ForwardPair(x, c, Two(BITS - l) + g, x.src[a], x.src[a + len], t[a], t[a + len]);
  }

  lemma MirrorAt(l: nat, g: nat)
    requires 1 <= l <= BITS && g < Two(BITS - l)
    ensures 1 <= Two(BITS - l) + g < 128 && 2 * Two(BITS - l) - 1 - g < 128
    ensures Mirror(Two(BITS - l) + g) == 2 * Two(BITS - l) - 1 - g
  {
    MirrorCount(l, g);
  }

  // t is the ring-level layer of the stage
  ghost predicate IsInverse(x: Stage, t: Poly)
    requires StageOk(x)
  {
    var l := Level(x.index, true);
    var k0 := Two(BITS - l);
    l > 0 && Blocks(x.src, l, k0, k0) && t == MergeLayer(x.src, l, k0, k0)
  }

  lemma {:induction false} InverseWord(x: Stage, p: nat, t: Poly)
    requires StageOk(x) && x.mode && x.inv && InRange(x.src) && p < 256 && IsInverse(x, t) && |t| == 256
    ensures 0 <= HwLayer(x)[p] <= Q && Cong(HwLayer(x)[p], t[p])
  {
    hide WordAt, Two, IsInverse, Cong, Operand, OutA, OutB, HwLayer, InRange;
    var c, g, j, a := WordShape(x, p);
    InverseWordAt(x, c, g, j, a, t, Two(Level(x.index, true)));
  }

  lemma {:induction false} InverseWordAt(x: Stage, c: nat, g: nat, j: nat, a: nat, t: Poly, len: nat)
    requires StageOk(x) && x.mode && x.inv && InRange(x.src) && WordAt(x, c, g, j, a) && IsInverse(x, t) && |t| == 256
    requires len == Two(Level(x.index, true))
    ensures a + len < 256
    ensures 0 <= OutA(Operand(x, c)) <= Q && Cong(OutA(Operand(x, c)), t[a])
    ensures 0 <= OutB(Operand(x, c)) <= Q && Cong(OutB(Operand(x, c)), t[a + len])
  {
    hide AddrA, AddrB, TwiddleAddr, Two, Rom, Root, OutA, OutB, Cong, MergeLayer, Blocks, Mirror;
    var l := Level(x.index, true);
    LevelBlocks(x.src, l);
    MirrorAt(l, g);
    MergeLayerAt(x.src, l, Two(BITS - l), Two(BITS - l), g, j, a);
    InverseButterfly(2 * Two(BITS - l) - 1 - g, x.src[a], x.src[a + len]);
  }

  lemma ForwardLayer(x: Stage)
    requires StageOk(x) && !x.mode && !x.inv && InRange(x.src)
    ensures var l := Level(x.index, false);
      var k0 := Two(BITS - l);
      Blocks(x.src, l, k0, k0) && Reduced(HwLayer(x)) && CongSeq(HwLayer(x), SplitLayer(x.src, l, k0, k0))
  {
    hide HwLayer, SplitLayer, Cong, Blocks, Two, InRange;
    var l := Level(x.index, false);
    LevelBlocks(x.src, l);
    var t := SplitLayer(x.src, l, Two(BITS - l), Two(BITS - l));
    forall p | 0 <= p < 256
      ensures 0 <= HwLayer(x)[p] <= Q && Cong(HwLayer(x)[p], t[p])
    {
      ForwardWord(x, p, t);
    }
  }

  lemma InverseLayer(x: Stage)
    requires StageOk(x) && x.mode && x.inv && InRange(x.src)
    ensures var l := Level(x.index, true);
      var k0 := Two(BITS - l);
      Blocks(x.src, l, k0, k0) && Reduced(HwLayer(x)) && CongSeq(HwLayer(x), MergeLayer(x.src, l, k0, k0))
  {
    hide HwLayer, MergeLayer, Cong, Blocks, Two, InRange;
    var l := Level(x.index, true);
    LevelBlocks(x.src, l);
    var t := MergeLayer(x.src, l, Two(BITS - l), Two(BITS - l));
    forall p | 0 <= p < 256
      ensures 0 <= HwLayer(x)[p] <= Q && Cong(HwLayer(x)[p], t[p])
    {
      InverseWord(x, p, t);
    }
  }

  // After i stages, the transform of the 2^i blocks is the transform of the input
  lemma {:induction false} ForwardStages(f: Ram, i: nat)
    requires InRange(f) && i <= 7
    ensures var s, l := HwStages(false, false, f, i), 7 - i;
      var k := Two(BITS - l);
      && InRange(s) && (i > 0 ==> Reduced(s)) && Blocks(f, BITS, 1, 1) && Blocks(s, l, k, k)
      && CongSeq(NttAll(s, l, k, k), NttAll(f, BITS, 1, 1))
    decreases i
  {
    hide HwLayer, NttAll, CongSeq, InRange, Reduced, Blocks;
    BitsIs();
    WholeLayer(f, BITS);
    if i == 0 {
      CongSeqRefl(NttAll(f, BITS, 1, 1));
    } else {
      ForwardStagesStep(f, i);
    }
  }

  lemma {:induction false} ForwardStagesStep(f: Ram, i: nat)
    requires InRange(f) && 0 < i <= 7 && Blocks(f, BITS, 1, 1)
    ensures var s, l := HwStages(false, false, f, i), 7 - i;
      var k := Two(BITS - l);
      && InRange(s) && Reduced(s) && Blocks(s, l, k, k)
      && CongSeq(NttAll(s, l, k, k), NttAll(f, BITS, 1, 1))
    decreases i, 0
  {
    hide HwLayer, NttAll, CongSeq, InRange, Reduced, Blocks, SplitLayer;
    BitsIs();
    var s, l := HwStages(false, false, f, i - 1), 8 - i;
    var k := Two(BITS - l);
    ForwardStages(f, i - 1);
    var x := Stage(false, false, i - 1, s);
    ForwardLayer(x);
    var t, d := HwLayer(x), SplitLayer(s, l, k, k);
    ReducedInRange(t);
    WholeLayer(t, l - 1);
    assert Two(BITS - (l - 1)) == 2 * k;
    NttAllOfSplit(s, l, k, k);
    NttAllCong(t, d, l - 1, 2 * k, 2 * k);
    CongSeqTrans(NttAll(t, l - 1, 2 * k, 2 * k), NttAll(s, l, k, k), NttAll(f, BITS, 1, 1));
  }

  // After i stages, the blocks are the inverse transforms of the input's
  lemma {:induction false} InverseStages(f: Ram, i: nat)
    requires InRange(f) && i <= 7
    ensures var s := HwStages(true, true, f, i);
      var k := Two(BITS - i);
      InRange(s) && (i > 0 ==> Reduced(s)) && Blocks(f, i, k, k) && CongSeq(s, InvAll(f, i, k, k))
    decreases i
  {
    hide HwLayer, InvAll, CongSeq, InRange, Reduced, Blocks;
    BitsIs();
    WholeLayer(f, i);
    if i == 0 {
      InvAllLeaves(f, Two(BITS), Two(BITS));
      CongSeqRefl(f);
    } else {
      InverseStagesStep(f, i);
    }
  }

  lemma {:induction false} InverseStagesStep(f: Ram, i: nat)
    requires InRange(f) && 0 < i <= 7 && Blocks(f, i, Two(BITS - i), Two(BITS - i))
    ensures var s := HwStages(true, true, f, i);
      var k := Two(BITS - i);
      InRange(s) && Reduced(s) && CongSeq(s, InvAll(f, i, k, k))
    decreases i, 0
  {
    hide HwLayer, InvAll, CongSeq, InRange, Reduced, Blocks, MergeLayer;
    BitsIs();
    var s, k := HwStages(true, true, f, i - 1), Two(BITS - i);
    InverseStages(f, i - 1);
    var x := Stage(true, true, i - 1, s);
    InverseLayer(x);
    var t := HwLayer(x);
    ReducedInRange(t);
    assert Two(BITS - (i - 1)) == 2 * k;
    MergeOfInvAll(f, i, k, k);
    MergeLayerCong(s, InvAll(f, i - 1, 2 * k, 2 * k), i, k, k);
    CongSeqTrans(t, MergeLayer(s, i, k, k), InvAll(f, i, k, k));
  }

  lemma NttAllTop(s: Poly)
    requires |s| == 256
    ensures Blocks(s, 0, Two(BITS), Two(BITS)) && NttAll(s, 0, Two(BITS), Two(BITS)) == s
  {
    WholeLayer(s, 0);
    NttAllLeaves(s, Two(BITS), Two(BITS));
  }

  // The forward run leaves the transform ntt of the reference code, modulo q, in [0, q]
  lemma {:induction false} ForwardRun(c: Core, ps: seq<Pins>)
    requires Ready(c) && Driven(ps, false, false) && |ps| == 2 + 7 * 142
    requires InRange(Tick(c, ps[0]).ram0)
    ensures var f, d := Tick(c, ps[0]).ram0, Run(c, ps);
      d.done && Ready(d) && AllFit16(f) && Reduced(d.ram1) && CongSeq(d.ram1, CtLayers(f, BITS))
  {
    hide Tick, HwStages, CongSeq, NttAll, CtLayers, Run;
    var f := Tick(c, ps[0]).ram0;
    RunEnds(c, ps, false, false);
    ForwardIsReference(f);
  }

  lemma {:induction false} ForwardIsReference(f: Ram)
    requires InRange(f)
    ensures AllFit16(f) && Reduced(HwStages(false, false, f, 7))
    ensures CongSeq(HwStages(false, false, f, 7), CtLayers(f, BITS))
  {
    hide HwStages, CongSeq, NttAll, CtLayers, Blocks;
    var d := HwStages(false, false, f, 7);
    BitsIs();
    ForwardStages(f, 7);
    NttAllTop(d);
    assert Bounded(f, Q);
    CtLayersOk(f, BITS, Q);
    CongSeqSym(CtLayers(f, BITS), NttAll(f, BITS, 1, 1));
    CongSeqTrans(d, NttAll(f, BITS, 1, 1), CtLayers(f, BITS));
  }

  // The inverse run leaves the seven layers of invntt, before its final scaling
  lemma {:induction false} InverseRun(c: Core, ps: seq<Pins>)
    requires Ready(c) && Driven(ps, true, true) && |ps| == 2 + 7 * 143
    requires InRange(Tick(c, ps[0]).ram0)
    ensures var f, d := Tick(c, ps[0]).ram0, Run(c, ps);
      d.done && Ready(d) && Reduced(d.ram1) && CongSeq(d.ram1, GsLayers(f, BITS))
  {
    hide Tick, HwStages, CongSeq, InvAll, GsLayers, Run;
    var f := Tick(c, ps[0]).ram0;
    RunEnds(c, ps, true, true);
    InverseIsReference(f);
  }

  lemma {:induction false} InverseIsReference(f: Ram)
    requires InRange(f)
    ensures Reduced(HwStages(true, true, f, 7)) && CongSeq(HwStages(true, true, f, 7), GsLayers(f, BITS))
  {
    hide HwStages, CongSeq, InvAll, GsLayers, Blocks;
    var d := HwStages(true, true, f, 7);
    BitsIs();
    InverseStages(f, 7);
    assert Bounded(f, 16383);
    GsLayersOk(f, BITS);
    CongSeqSym(GsLayers(f, BITS), InvAll(f, BITS, 1, 1));
    CongSeqTrans(d, InvAll(f, BITS, 1, 1), GsLayers(f, BITS));
  }
}
