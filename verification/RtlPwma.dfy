/** rtl/kyber/kyber_pwma_local.v: the streaming pointwise multiply-accumulate engine. It accepts
    one coefficient pair per cycle when the stream offers one, multiplies it by the operand pair
    with the same index, and adds the result to the accumulator RAM in canonical form. Tick is one
    clock edge. */
module RtlPwma {
  import opened ModQ
  import opened RtlMath
  import opened RtlBasemul

  // An entry of the index pipeline: ages 0 to 2 are rd_v0 .. rd_v2, 3 to 18 pipe_valid[0 .. 15],
  // 19 is write_pending
  datatype Slot = Slot(valid: bool, index: nat)

  type Slots = s: seq<Slot> | |s| == 20 witness seq(20, d => Slot(false, 0))

  type Ram = s: seq<Pair> | |s| == 256 witness seq(256, i => Pair(0, 0))

  datatype Job = Job(bank: nat, operandBank: nat, accumulate: bool)

  datatype Load = Load(we: bool, bank: nat, addr: nat, pair: Pair)

  datatype Pins = Pins(rst: bool, start: bool, job: Job, useTomont: bool, streamValid: bool, stream: Pair,
                       accLoad: Load, operandLoad: Load, resultBank: nat, resultAddr: nat)

  datatype Pwma = Pwma(busy: bool, done: bool, job: Job, issue: nat, slots: Slots,
                       operandAddr: nat, zetaAddr: nat, d0: Pair, d1: Pair, d2: Pair,
                       rom: int, zeta: int, operandRaw: Pair, operand: Pair,
                       bm: Basemul, cv: Convert, hold: Pair, accRead: Pair, acc: Ram, operands: Ram)

  predicate JobValid(j: Job) {
    j.bank < 2 && j.operandBank < 2
  }

  predicate LoadValid(l: Load) {
    l.bank < 2 && l.addr < 128
  }

  predicate ValidPins(p: Pins) {
    JobValid(p.job) && LoadValid(p.accLoad) && LoadValid(p.operandLoad) && p.resultBank < 2 && p.resultAddr < 128
  }

  predicate Valid(c: Pwma) {
    && JobValid(c.job) && c.operandAddr < 128 && c.zetaAddr < 128 && BmValid(c.bm) && ConvertValid(c.cv)
    && c.issue <= 128 && forall d :: 0 <= d < 20 ==> c.slots[d].index < 128
  }

  // {bank, addr}
  function Word(bank: nat, addr: nat): (w: nat)
    requires bank < 2 && addr < 128
    ensures w < 256
  {
    128 * bank + addr
  }

  // ----- Wires -----

  predicate Ready(c: Pwma) {
    c.busy && c.issue < 128
  }

  predicate Fire(c: Pwma, p: Pins) {
    Ready(c) && p.streamValid
  }

  predicate Starts(c: Pwma, p: Pins) {
    p.start && !c.busy
  }

  predicate Empty(s: Slots) {
    forall d :: 0 <= d < 20 ==> !s[d].valid
  }

  predicate Drained(c: Pwma) {
    c.issue == 128 && Empty(c.slots)
  }

  // pwma_zeta_real of kyber512_core_fsm.v
  function Centre(x: int): int {
    if x > 1664 then x - Q else x
  }

  function Signed(z: int, index: nat): int {
    if index % 2 == 1 then I16(-z) else z
  }

  function BmInput(c: Pwma): BmIn {
    BmIn(c.operand.c0, c.operand.c1, c.d2.c0, c.d2.c1, Signed(c.zeta, c.slots[2].index))
  }

  function BaseOut(c: Pwma): Pair {
    Pair(c.bm.bar0.diff, c.bm.bar1.diff)
  }

  // sum, nonnegative and reduced of one coefficient; 17 bits hold every intermediate value
  function Merge1(accumulate: bool, prior: int, x: int): int {
    var sum := if accumulate then prior + x else x;
    var nonnegative := if sum < 0 then sum + Q else sum;
    I16(if nonnegative >= Q then nonnegative - Q else nonnegative)
  }

  function Merge(accumulate: bool, prior: Pair, x: Pair): Pair {
    Pair(Merge1(accumulate, prior.c0, x.c0), Merge1(accumulate, prior.c1, x.c1))
  }

  function ResultPair(c: Pwma): Pair {
    Merge(c.job.accumulate, c.accRead, c.hold)
  }

  function AccReadWord(c: Pwma, p: Pins): (w: nat)
    requires Valid(c) && ValidPins(p)
    ensures w < 256
  {
    if c.busy && c.slots[18].valid then Word(c.job.bank, c.slots[18].index) else Word(p.resultBank, p.resultAddr)
  }

  function OperandWord(c: Pwma, p: Pins): (w: nat)
    requires Valid(c) && ValidPins(p)
    ensures w < 256
  {
    if c.busy then Word(c.job.operandBank, c.operandAddr) else Word(p.operandLoad.bank, p.operandLoad.addr)
  }

  // ----- Next state -----

  function AccNext(c: Pwma, p: Pins): Ram
    requires Valid(c) && ValidPins(p)
  {
    if p.accLoad.we then c.acc[Word(p.accLoad.bank, p.accLoad.addr) := p.accLoad.pair]
    else if c.slots[19].valid then c.acc[Word(c.job.bank, c.slots[19].index) := ResultPair(c)]
    else c.acc
  }

  function OperandsNext(c: Pwma, p: Pins): Ram
    requires Valid(c) && ValidPins(p)
  {
    if p.operandLoad.we then c.operands[Word(p.operandLoad.bank, p.operandLoad.addr) := p.operandLoad.pair]
      else c.operands
  }

  // write_index keeps its value when nothing reaches it
  function Moved(c: Pwma, p: Pins): (s: Slots)
  {
    var last := if c.slots[18].valid then c.slots[18] else Slot(false, c.slots[19].index);
    [Slot(Fire(c, p), if Fire(c, p) then c.issue else 0)] + c.slots[..18] + [last]
  }

  function SlotsNext(c: Pwma, p: Pins): (s: Slots) {
    if p.rst then seq(20, d => Slot(false, 0))
    else if Starts(c, p) then seq(20, d requires 0 <= d < 20 => Slot(false, Moved(c, p)[d].index))
    else Moved(c, p)
  }

  function IssueNext(c: Pwma, p: Pins): nat {
    if p.rst || Starts(c, p) then 0 else if Fire(c, p) then c.issue + 1 else c.issue
  }

  function BusyNext(c: Pwma, p: Pins): bool {
    !p.rst && (Starts(c, p) || (c.busy && !Drained(c)))
  }

  function OperandAddrNext(c: Pwma, p: Pins): nat {
    if p.rst then 0 else if Fire(c, p) then c.issue else c.operandAddr
  }

  function ZetaAddrNext(c: Pwma, p: Pins): nat {
    if p.rst then 64 else if Fire(c, p) then 64 + c.issue / 2 else c.zetaAddr
  }

  function D0Next(c: Pwma, p: Pins): Pair {
    if p.rst then Pair(0, 0) else if Fire(c, p) then p.stream else c.d0
  }

  function Cleared(p: Pins, x: Pair): Pair {
    if p.rst then Pair(0, 0) else x
  }

  function JobNext(c: Pwma, p: Pins): Job {
    if p.rst then Job(0, 0, false) else if Starts(c, p) then p.job else c.job
  }

  function HoldNext(c: Pwma, p: Pins): Pair {
    if p.rst then Pair(0, 0) else if c.slots[18].valid then Selected(c.cv, p.useTomont) else c.hold
  }

  // The ROM is the one inside the idle NTT core; RAM and ROM registers have no reset
  function Tick(c: Pwma, p: Pins): (n: Pwma)
    requires Valid(c) && ValidPins(p)
  {
    Pwma(BusyNext(c, p), !p.rst && c.busy && Drained(c), JobNext(c, p), IssueNext(c, p), SlotsNext(c, p),
         OperandAddrNext(c, p), ZetaAddrNext(c, p), D0Next(c, p), Cleared(p, c.d0), Cleared(p, c.d1),
         Rom(c.zetaAddr), if p.rst then 0 else Centre(c.rom),
         c.operands[OperandWord(c, p)], Cleared(p, c.operandRaw),
         if p.rst then BmReset(c.bm, BmInput(c)) else BmStep(c.bm, BmInput(c)),
         if p.rst then ZERO_CONVERT else ConvertStep(c.cv, BaseOut(c)),
         HoldNext(c, p), c.acc[AccReadWord(c, p)], AccNext(c, p), OperandsNext(c, p))
  }

  // The data registers after an edge without reset
  lemma TickData(c: Pwma, p: Pins)
    requires Valid(c) && ValidPins(p) && !p.rst
    ensures var n := Tick(c, p);
      && n.d0 == D0Next(c, p) && n.d1 == c.d0 && n.d2 == c.d1
      && n.operandAddr == OperandAddrNext(c, p) && n.zetaAddr == ZetaAddrNext(c, p)
      && n.rom == Rom(c.zetaAddr) && n.zeta == Centre(c.rom)
      && n.operandRaw == c.operands[OperandWord(c, p)] && n.operand == c.operandRaw
      && n.bm == BmStep(c.bm, BmInput(c)) && n.cv == ConvertStep(c.cv, BaseOut(c))
      && n.hold == HoldNext(c, p) && n.accRead == c.acc[AccReadWord(c, p)]
  {
    hide D0Next, OperandAddrNext, ZetaAddrNext, Rom, Centre, OperandWord, BmStep, BmInput, ConvertStep, BaseOut,
      HoldNext, AccReadWord, SlotsNext, AccNext, OperandsNext, BusyNext, IssueNext, JobNext;
  }

  // The control registers and the RAMs
  lemma TickControl(c: Pwma, p: Pins)
    requires Valid(c) && ValidPins(p)
    ensures var n := Tick(c, p);
      && n.busy == BusyNext(c, p) && n.done == (!p.rst && c.busy && Drained(c)) && n.job == JobNext(c, p)
      && n.issue == IssueNext(c, p) && n.slots == SlotsNext(c, p)
      && n.acc == AccNext(c, p) && n.operands == OperandsNext(c, p)
  {
    hide D0Next, OperandAddrNext, ZetaAddrNext, Rom, Centre, OperandWord, BmStep, BmReset, BmInput, ConvertStep,
      BaseOut, HoldNext, AccReadWord, SlotsNext, AccNext, OperandsNext, BusyNext, IssueNext, JobNext, Drained;
  }

  lemma {:induction false} SlotsNextValid(c: Pwma, p: Pins)
    requires Valid(c) && ValidPins(p)
    ensures forall d :: 0 <= d < 20 ==> SlotsNext(c, p)[d].index < 128
    ensures IssueNext(c, p) <= 128 && OperandAddrNext(c, p) < 128 && ZetaAddrNext(c, p) < 128
  {
    hide BmValid, ConvertValid;
    forall d | 0 <= d < 20
      ensures Moved(c, p)[d].index < 128
    {
      if 0 < d < 19 {
        assert Moved(c, p)[d] == c.slots[d - 1];
      }
    }
  }

  lemma TickValid(c: Pwma, p: Pins)
    requires Valid(c) && ValidPins(p)
    ensures Valid(Tick(c, p))
  {
    hide D0Next, OperandAddrNext, ZetaAddrNext, Rom, Centre, OperandWord, BmStep, BmReset, BmInput, ConvertStep,
      BaseOut, HoldNext, AccReadWord, SlotsNext, AccNext, OperandsNext, BusyNext, IssueNext, JobNext, Drained;
    SlotsNextValid(c, p);
    TickPipes(c, p);
    assert JobValid(JobNext(c, p)) by {
      JobNextValid(c, p);
    }
  }

  lemma JobNextValid(c: Pwma, p: Pins)
    requires JobValid(c.job) && JobValid(p.job)
    ensures JobValid(JobNext(c, p))
  {
  }

  lemma TickPipes(c: Pwma, p: Pins)
    requires Valid(c) && ValidPins(p)
    ensures BmValid(Tick(c, p).bm) && ConvertValid(Tick(c, p).cv)
  {
    hide D0Next, OperandAddrNext, ZetaAddrNext, Rom, Centre, OperandWord, BmStep, BmReset, BmInput, ConvertStep,
      BaseOut, HoldNext, AccReadWord, SlotsNext, AccNext, OperandsNext, BusyNext, IssueNext, JobNext, Drained,
      BmValid;
  }

  // ----- The clocked block -----

  // Stream, operand and twiddle registers on the way to the basemul
  datatype Front = Front(operandAddr: nat, zetaAddr: nat, d0: Pair, d1: Pair, d2: Pair, rom: int, zeta: int,
                         operandRaw: Pair, operand: Pair)

  // The arithmetic pipeline and the registers behind it
  datatype Back = Back(bm: Basemul, cv: Convert, hold: Pair, accRead: Pair)

  class PwmaLocal {
    const acc: array<Pair>
    const operands: array<Pair>
    const pipe: array<Slot>
    var busy: bool
    var done: bool
    var job: Job
    var issue: nat
    var front: Front
    var back: Back

    predicate Shaped()
      reads this
    {
      acc.Length == 256 && operands.Length == 256 && acc != operands && pipe.Length == 20
    }

    function State(): Pwma
      requires Shaped()
      reads this, acc, operands, pipe
    {
      Pwma(busy, done, job, issue, pipe[..], front.operandAddr, front.zetaAddr, front.d0, front.d1, front.d2, front.rom,
           front.zeta, front.operandRaw, front.operand, back.bm, back.cv, back.hold, back.accRead, acc[..],
             operands[..])
    }

    // One RAM: old data on the output
    static method ClockRam(ram: array<Pair>, rd: nat, we: bool, wr: nat, din: Pair) returns (out: Pair)
      requires ram.Length == 256 && rd < 256 && wr < 256
      modifies ram
      ensures ram[..] == (if we then old(ram[..])[wr := din] else old(ram[..])) && out == old(ram[rd])
    {
      out := ram[rd];
      if we {
        ram[wr] := din;
      }
    }

    // The loop over pipe_valid and pipe_index, the rd stages in front of it and write_pending behind
    method MovePipe(first: Slot)
      requires Shaped()
      modifies pipe
      ensures pipe[..] ==
        [first] + old(pipe[..18])
        + [if old(pipe[18]).valid then old(pipe[18]) else Slot(false, old(pipe[19]).index)]
    {
      pipe[19] := if pipe[18].valid then pipe[18] else Slot(false, pipe[19].index);
      ghost var last := pipe[19];
      var i := 18;
      while i > 0
        invariant 0 <= i <= 18 && pipe[19] == last
        invariant forall d :: 0 <= d <= i ==> pipe[d] == old(pipe[d])
        invariant forall d :: i < d < 19 ==> pipe[d] == old(pipe[d - 1])
      {
        pipe[i] := pipe[i - 1];
        i := i - 1;
      }
      pipe[0] := first;
    }

    method ClearPipe(zero: bool)
      requires Shaped()
      modifies pipe
      ensures pipe[..] == seq(20, d requires 0 <= d < 20 => Slot(false, if zero then 0 else old(pipe[..])[d].index))
    {
      for i := 0 to 20
        invariant forall d :: 0 <= d < i ==> pipe[d] == Slot(false, if zero then 0 else old(pipe[..])[d].index)
        invariant forall d :: i <= d < 20 ==> pipe[d] == old(pipe[..])[d]
      {
        pipe[i] := Slot(false, if zero then 0 else pipe[i].index);
      }
    }

    // rd_v0 .. write_pending
    method ClockPipe(c: Pwma, p: Pins)
      requires Shaped() && pipe[..] == c.slots
      modifies pipe
      ensures pipe[..] == SlotsNext(c, p)
    {
      hide Fire, Starts;
      if p.rst {
        ClearPipe(true);
        assert pipe[..] == seq(20, d => Slot(false, 0));
      } else {
        MovePipe(Slot(Fire(c, p), if Fire(c, p) then c.issue else 0));
        assert pipe[..] == Moved(c, p);
        if Starts(c, p) {
          ClearPipe(false);
        }
      }
    }

    method ClockFront(c: Pwma, p: Pins, operandOut: Pair)
      modifies `front
      ensures front == Front(OperandAddrNext(c, p), ZetaAddrNext(c, p), D0Next(c, p), Cleared(p, c.d0),
          Cleared(p, c.d1),
                             Rom(c.zetaAddr), if p.rst then 0 else Centre(c.rom), operandOut, Cleared(p, c.operandRaw))
    {
      hide Rom, Centre;
      var zero := Pair(0, 0);
      if p.rst {
        front := Front(0, 64, zero, zero, zero, Rom(c.zetaAddr), 0, operandOut, zero);
        return;
      }
      front := Front(c.operandAddr, c.zetaAddr, c.d0, c.d0, c.d1, Rom(c.zetaAddr), Centre(c.rom), operandOut,
        c.operandRaw);
      if Fire(c, p) {
        front := front.(operandAddr := c.issue, zetaAddr := 64 + c.issue / 2, d0 := p.stream);
      }
    }

    method ClockControl(c: Pwma, p: Pins)
      requires busy == c.busy && job == c.job && issue == c.issue
      modifies `busy, `done, `job, `issue
      ensures busy == BusyNext(c, p) && done == (!p.rst && c.busy && Drained(c)) && job == JobNext(c, p)
      ensures issue == IssueNext(c, p)
    {
      hide Empty;
      done := false;
      if p.rst {
        busy, job, issue := false, Job(0, 0, false), 0;
      } else if p.start && !busy {
        busy, job, issue := true, p.job, 0;
      } else if busy {
        if Fire(c, p) {
          issue := issue + 1;
        }
        if c.issue == 128 && Empty(c.slots) {
          busy, done := false, true;
        }
      }
    }

    method Clock(p: Pins)
      requires Shaped() && Valid(State()) && ValidPins(p)
      modifies this, acc, operands, pipe
      ensures Shaped() && Valid(State()) && State() == Tick(old(State()), p)
    {
      hide SlotsNext, OperandAddrNext, ZetaAddrNext, D0Next, Cleared, Rom, Centre, BmStep, BmReset, BmInput,
        ConvertStep, BaseOut, HoldNext, ResultPair, Valid, ValidPins, BusyNext, Drained, JobNext, IssueNext,
        AccReadWord, OperandWord;
      var c := State();
      TickValid(c, p);
      WordsInRange(c, p);
      var loadWord := Word(p.accLoad.bank, p.accLoad.addr);
      var writeWord := if p.accLoad.we then loadWord else Word(c.job.bank, c.slots[19].index);
      var accOut := ClockRam(acc, AccReadWord(c, p), p.accLoad.we || c.slots[19].valid, writeWord,
                             if p.accLoad.we then p.accLoad.pair else ResultPair(c));
      var operandOut := ClockRam(operands, OperandWord(c, p), p.operandLoad.we,
                                 Word(p.operandLoad.bank, p.operandLoad.addr), p.operandLoad.pair);
      ClockPipe(c, p);
      ClockFront(c, p, operandOut);
      ClockControl(c, p);
      back := Back(if p.rst then BmReset(c.bm, BmInput(c)) else BmStep(c.bm, BmInput(c)),
                   if p.rst then ZERO_CONVERT else ConvertStep(c.cv, BaseOut(c)), HoldNext(c, p), accOut);
    }
  }

  lemma WordsInRange(c: Pwma, p: Pins)
    requires Valid(c) && ValidPins(p)
    ensures c.job.bank < 2 && c.slots[19].index < 128 && BmValid(c.bm) && ConvertValid(c.cv)
    ensures p.accLoad.bank < 2 && p.accLoad.addr < 128 && p.operandLoad.bank < 2 && p.operandLoad.addr < 128
  {
  }
}
