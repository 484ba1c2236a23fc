/** Whatever the pattern of stream stalls, the multiply-accumulate engine finishes only after 128
    accepted pairs, and leaves in the selected bank the canonical residues of the old values plus
    the products of the reference basemul. */
module RtlPwmaProof {
  import opened ModQ
  import opened Zetas
  import opened PolyRing
  import opened RtlMath
  import opened RtlBasemul
  import opened RtlPwma

  // What a run works on: the job, and the RAMs as it starts
  datatype Plan = Plan(job: Job, tomont: bool, acc: Ram, operands: Ram)

  function OperandAt(plan: Plan, k: nat): Pair
    requires JobValid(plan.job) && k < 128
  {
    plan.operands[Word(plan.job.operandBank, k)]
  }

  function PriorAt(plan: Plan, k: nat): Pair
    requires JobValid(plan.job) && k < 128
  {
    plan.acc[Word(plan.job.bank, k)]
  }

  function ZetaAt(k: nat): int {
    Signed(Centre(Rom(64 + k / 2)), k)
  }

  // What enters the basemul for pair k of the stream
  function Input(plan: Plan, k: nat, s: Pair): BmIn
    requires JobValid(plan.job) && k < 128
  {
    BmIn(OperandAt(plan, k).c0, OperandAt(plan, k).c1, s.c0, s.c1, ZetaAt(k))
  }

  function Term(plan: Plan, k: nat, s: Pair): Pair
    requires JobValid(plan.job) && k < 128
  {
    Converted(Base(Input(plan, k, s)), plan.tomont)
  }

  function Outcome(plan: Plan, k: nat, s: Pair): Pair
    requires JobValid(plan.job) && k < 128
  {
    Merge(plan.job.accumulate, PriorAt(plan, k), Term(plan, k, s))
  }

  // ----- Index bookkeeping -----

  // Valid slots of age d and more
  function Older(s: Slots, d: nat): nat
    requires d <= 20
    decreases 20 - d
  {
    if d == 20 then 0 else Older(s, d + 1) + if s[d].valid then 1 else 0
  }

  // How many of the first pairs have been written
  function Written(c: Pwma): int {
    c.issue - Older(c.slots, 0)
  }

  predicate Flows(s: Slots, t: Slots) {
    forall d :: 0 < d < 20 ==> (t[d].valid <==> s[d - 1].valid)
  }

  lemma {:induction false} OlderMoves(s: Slots, t: Slots, d: nat)
    requires Flows(s, t) && d < 20
    ensures Older(t, d + 1) == Older(s, d) - if s[19].valid then 1 else 0
    decreases 20 - d
  {
    if d < 19 {
      OlderMoves(s, t, d + 1);
    } else {
      assert Older(s, 20) == 0;
    }
  }

  lemma {:induction false} OlderEmpty(s: Slots, d: nat)
    requires d <= 20
    ensures Older(s, d) == 0 <==> forall e :: d <= e < 20 ==> !s[e].valid
    decreases 20 - d
  {
    if d < 20 {
      OlderEmpty(s, d + 1);
    }
  }

  lemma {:induction false} OlderAntitone(s: Slots, d: nat, e: nat)
    requires d <= e <= 20
    ensures Older(s, e) <= Older(s, d)
    decreases e - d
  {
    if d < e {
      OlderAntitone(s, d + 1, e);
    }
  }

  // ----- Data at each age -----

  predicate ReadHolds(c: Pwma, d: nat, plan: Plan, k: nat, s: Pair)
    requires JobValid(plan.job) && d < 3 && k < 128
  {
    match d
    case 0 => c.d0 == s && c.operandAddr == k && c.zetaAddr == 64 + k / 2
    case 1 => c.d1 == s && c.operandRaw == OperandAt(plan, k) && c.rom == Rom(64 + k / 2)
    case _ => c.d2 == s && c.operand == OperandAt(plan, k) && c.zeta == Centre(Rom(64 + k / 2))
  }

  predicate Holds(c: Pwma, d: nat, plan: Plan, k: nat, s: Pair)
    requires JobValid(plan.job) && d < 20 && k < 128
  {
    if d < 3 then ReadHolds(c, d, plan, k, s)
    else if d < 16 then HoldsBm(c.bm, d - 2, Input(plan, k, s))
    else if d < 19 then HoldsConvert(c.cv, d - 15, Base(Input(plan, k, s)))
    else c.hold == Term(plan, k, s) && c.accRead == PriorAt(plan, k)
  }

  predicate Quiet(p: Pins, plan: Plan) {
    ValidPins(p) && !p.rst && !p.accLoad.we && !p.operandLoad.we && p.useTomont == plan.tomont
  }

  lemma {:induction false} ReadsAdvance(c: Pwma, p: Pins, plan: Plan, d: nat, k: nat, s: Pair)
    requires Valid(c) && JobValid(plan.job) && Quiet(p, plan) && c.busy && c.job == plan.job
        && c.operands == plan.operands
    requires d < 2 && k < 128 && ReadHolds(c, d, plan, k, s)
    ensures ReadHolds(Tick(c, p), d + 1, plan, k, s)
  {
    hide Tick, Valid, Rom, Centre, BmStep, ConvertStep, HoldNext, AccReadWord;
    TickData(c, p);
  }

  lemma {:induction false} EntersBasemul(c: Pwma, p: Pins, plan: Plan, k: nat, s: Pair)
    requires Valid(c) && JobValid(plan.job) && Quiet(p, plan) && k < 128
    requires ReadHolds(c, 2, plan, k, s) && c.slots[2].index == k
    ensures HoldsBm(Tick(c, p).bm, 1, Input(plan, k, s))
  {
    hide Tick, Rom, Centre, BmStep, BmValid, ConvertStep, HoldNext, AccReadWord, HoldsBm, Signed;
    TickData(c, p);
    BmEnters(c.bm, Input(plan, k, s));
  }

  lemma {:induction false} BasemulAdvances(c: Pwma, p: Pins, d: nat, i: BmIn)
    requires Valid(c) && ValidPins(p) && !p.rst && 3 <= d < 16 && HoldsBm(c.bm, d - 2, i)
    ensures if d < 15 then HoldsBm(Tick(c, p).bm, d - 1, i) else HoldsConvert(Tick(c, p).cv, 1, Base(i))
  {
    hide Tick, Rom, Centre, BmStep, BmValid, ConvertStep, ConvertValid, HoldNext, AccReadWord, HoldsBm, HoldsConvert,
      BmInput, Base;
    TickData(c, p);
    if d < 15 {
      BmAdvances(c.bm, d - 2, i, BmInput(c));
    } else {
      BmLeaves(c.bm, i);
      ConvertEnters(c.cv, Base(i));
    }
  }

  lemma {:induction false} ConversionAdvances(c: Pwma, p: Pins, d: nat, b: Pair)
    requires Valid(c) && ValidPins(p) && !p.rst && 16 <= d < 19 && HoldsConvert(c.cv, d - 15, b)
    requires d == 18 ==> c.slots[18].valid
    ensures if d < 18 then HoldsConvert(Tick(c, p).cv, d - 14, b) else Tick(c, p).hold == Converted(b, p.useTomont)
  {
    hide Tick, Rom, Centre, BmStep, BmValid, ConvertStep, ConvertValid, AccReadWord, HoldsConvert, BmInput, BaseOut,
      Selected, Converted;
    TickData(c, p);
    if d < 18 {
      ConvertAdvances(c.cv, d - 15, b, BaseOut(c));
    } else {
      ConvertLeaves(c.cv, b, p.useTomont);
    }
  }

  // The accumulator word is read as the slot reaches write_pending
  lemma {:induction false} AccIsRead(c: Pwma, p: Pins, plan: Plan, k: nat)
    requires Valid(c) && JobValid(plan.job) && Quiet(p, plan) && c.busy && c.job == plan.job && k < 128
    requires c.slots[18].valid && c.slots[18].index == k && c.acc[Word(plan.job.bank, k)] == PriorAt(plan, k)
    ensures Tick(c, p).accRead == PriorAt(plan, k)
  {
    hide Tick, Rom, Centre, BmStep, BmValid, ConvertStep, ConvertValid, BmInput, BaseOut, HoldNext;
    TickData(c, p);
  }

  // A slot of age d becomes one of age d + 1 with its data, whatever its neighbours do
  lemma {:induction false} SlotAdvances(c: Pwma, p: Pins, plan: Plan, d: nat, k: nat, s: Pair)
    requires Valid(c) && JobValid(plan.job) && Quiet(p, plan) && c.busy && c.job == plan.job
        && c.operands == plan.operands
    requires d < 19 && k < 128 && c.slots[d].valid && c.slots[d].index == k && Holds(c, d, plan, k, s)
    requires c.acc[Word(plan.job.bank, k)] == PriorAt(plan, k)
    ensures Holds(Tick(c, p), d + 1, plan, k, s)
  {
    hide Tick, ReadHolds, HoldsBm, HoldsConvert, Base, Input, Valid, Converted;
    if d < 2 {
      ReadsAdvance(c, p, plan, d, k, s);
    } else if d == 2 {
      EntersBasemul(c, p, plan, k, s);
    } else if d < 16 {
      BasemulAdvances(c, p, d, Input(plan, k, s));
    } else {
      ConversionAdvances(c, p, d, Base(Input(plan, k, s)));
      if d == 18 {
        AccIsRead(c, p, plan, k);
      }
    }
  }

  lemma {:induction false} SlotEnters(c: Pwma, p: Pins, plan: Plan)
    requires Valid(c) && JobValid(plan.job) && Quiet(p, plan) && Fire(c, p)
    ensures Holds(Tick(c, p), 0, plan, c.issue, p.stream)
  {
    hide Tick, Valid, Rom, Centre, BmStep, ConvertStep, HoldNext, AccReadWord, BmValid, ConvertValid;
    TickData(c, p);
  }

  // ----- Invariant -----

  function Expected(plan: Plan, w: int, s: seq<Pair>, i: nat): Pair
    requires JobValid(plan.job) && w <= |s| <= 128 && i < 256
  {
    var k := i - 128 * plan.job.bank;
    if 0 <= k < w then Outcome(plan, k, s[k]) else plan.acc[i]
  }

  predicate SlotOk(c: Pwma, d: nat, plan: Plan, s: seq<Pair>)
    requires JobValid(plan.job) && d < 20 && |s| <= 128
  {
    && c.slots[d].index == Written(c) + Older(c.slots, d + 1) < |s|
    && Holds(c, d, plan, c.slots[d].index, s[c.slots[d].index])
  }

  // s: the pairs accepted so far
  predicate Inv(c: Pwma, plan: Plan, s: seq<Pair>) {
    && Valid(c) && JobValid(plan.job) && c.busy && !c.done && c.job == plan.job && c.operands == plan.operands
    && |s| == c.issue && 0 <= Written(c)
    && (forall d :: 0 <= d < 20 && c.slots[d].valid ==> SlotOk(c, d, plan, s))
    && (forall i :: 0 <= i < 256 ==> c.acc[i] == Expected(plan, Written(c), s, i))
  }

  function Accept(c: Pwma, p: Pins, s: seq<Pair>): seq<Pair> {
    if Fire(c, p) then s + [p.stream] else s
  }

  // Counting across an edge: what leaves write_pending is what becomes written
  lemma {:induction false} WrittenMoves(c: Pwma, p: Pins)
    requires Valid(c) && ValidPins(p) && c.busy && !p.rst
    ensures SlotsNext(c, p) == Moved(c, p) && Flows(c.slots, Moved(c, p))
    ensures Written(Tick(c, p)) == Written(c) + if c.slots[19].valid then 1 else 0
    ensures forall d :: 0 <= d < 20 ==>
      Older(Tick(c, p).slots, d + 1) == Older(c.slots, d) - if c.slots[19].valid then 1 else 0
  {
    hide Tick, BmValid, ConvertValid, Drained, AccNext, OperandsNext, JobNext;
    TickControl(c, p);
    MovedFlows(c, p);
    OlderMoves(c.slots, Moved(c, p), 0);
    forall d | 0 <= d < 20
      ensures Older(Tick(c, p).slots, d + 1) == Older(c.slots, d) - if c.slots[19].valid then 1 else 0
    {
      OlderMoves(c.slots, Moved(c, p), d);
    }
  }

  lemma MovedFlows(c: Pwma, p: Pins)
    ensures Flows(c.slots, Moved(c, p))
    ensures forall d :: 0 <= d < 20 && Moved(c, p)[d].valid ==>
      Moved(c, p)[d] == if d == 0 then Slot(Fire(c, p), c.issue) else c.slots[d - 1]
  {
    forall d | 0 < d < 19
      ensures Moved(c, p)[d] == c.slots[d - 1]
    {
    }
  }

  // The written word leaves, everything else stays
  lemma {:induction false} AccKeeps(c: Pwma, p: Pins, plan: Plan, s: seq<Pair>, i: nat)
    requires Inv(c, plan, s) && Quiet(p, plan) && i < 256
    ensures Written(Tick(c, p)) <= |Accept(c, p, s)| <= 128
    ensures Tick(c, p).acc[i] == Expected(plan, Written(Tick(c, p)), Accept(c, p, s), i)
  {
    hide Tick, BmValid, ConvertValid, Drained, OperandsNext, JobNext, Older, Outcome, Merge, Term, SlotsNext, Moved,
      Flows;
    WrittenMoves(c, p);
    TickControl(c, p);
    assert Older(c.slots, 20) == 0 by {
      OlderEmpty(c.slots, 20);
    }
    assert Written(c) <= |s|;
    assert c.acc[i] == Expected(plan, Written(c), s, i);
    if c.slots[19].valid {
      assert SlotOk(c, 19, plan, s);
      assert ResultPair(c) == Outcome(plan, Written(c), s[Written(c)]) by {
        OutcomeIsMerge(plan, Written(c), s[Written(c)]);
      }
    }
  }

  lemma OutcomeIsMerge(plan: Plan, k: nat, s: Pair)
    requires JobValid(plan.job) && k < 128
    ensures Outcome(plan, k, s) == Merge(plan.job.accumulate, PriorAt(plan, k), Term(plan, k, s))
  {
    hide Merge, Term, PriorAt;
  }

  lemma {:induction false} SlotKeeps(c: Pwma, p: Pins, plan: Plan, s: seq<Pair>, d: nat)
    requires Inv(c, plan, s) && Quiet(p, plan) && d < 20 && Tick(c, p).slots[d].valid
    ensures |Accept(c, p, s)| <= 128 && SlotOk(Tick(c, p), d, plan, Accept(c, p, s))
  {
    hide Tick, BmValid, ConvertValid, Drained, OperandsNext, JobNext, Older, Outcome, Holds, AccNext, SlotsNext,
      Moved, Flows;
    WrittenMoves(c, p);
    MovedFlows(c, p);
    TickControl(c, p);
    if d == 0 {
      SlotEnters(c, p, plan);
      assert Older(Tick(c, p).slots, 1) == Older(c.slots, 0) - if c.slots[19].valid then 1 else 0 by {
        OlderMoves(c.slots, Tick(c, p).slots, 0);
      }
    } else {
      SlotMoves(c, p, plan, s, d);
    }
  }

  lemma {:induction false} SlotMoves(c: Pwma, p: Pins, plan: Plan, s: seq<Pair>, d: nat)
    requires Inv(c, plan, s) && Quiet(p, plan) && 0 < d < 20 && c.slots[d - 1].valid
    requires Tick(c, p).slots[d] == c.slots[d - 1]
    ensures |Accept(c, p, s)| <= 128 && SlotOk(Tick(c, p), d, plan, Accept(c, p, s))
  {
    hide Tick, BmValid, ConvertValid, Drained, OperandsNext, JobNext, Older, Outcome, Holds, AccNext, SlotsNext,
      Moved, Flows;
    WrittenMoves(c, p);
    assert SlotOk(c, d - 1, plan, s);
    var k := c.slots[d - 1].index;
    assert Written(c) <= k;
    assert c.acc[Word(plan.job.bank, k)] == Expected(plan, Written(c), s, Word(plan.job.bank, k));
    SlotAdvances(c, p, plan, d - 1, k, s[k]);
  }

  lemma {:induction false} InvStep(c: Pwma, p: Pins, plan: Plan, s: seq<Pair>)
    requires Inv(c, plan, s) && Quiet(p, plan) && !Drained(c)
    ensures Inv(Tick(c, p), plan, Accept(c, p, s))
  {
    hide Tick, BmValid, ConvertValid, Drained, Older, Outcome, Holds, AccNext, SlotsNext, Moved, Flows, SlotOk,
      Expected;
    TickValid(c, p);
    TickControl(c, p);
    WrittenMoves(c, p);
    forall d | 0 <= d < 20 && Tick(c, p).slots[d].valid
      ensures SlotOk(Tick(c, p), d, plan, Accept(c, p, s))
    {
      SlotKeeps(c, p, plan, s, d);
    }
    forall i | 0 <= i < 256
      ensures Tick(c, p).acc[i] == Expected(plan, Written(Tick(c, p)), Accept(c, p, s), i)
    {
      AccKeeps(c, p, plan, s, i);
    }
  }

  // The accumulator RAM at the end of a run over the stream s
  function Final(plan: Plan, s: seq<Pair>): Ram
    requires JobValid(plan.job) && |s| == 128
  {
    seq(256, i requires 0 <= i < 256 => Expected(plan, 128, s, i))
  }

  lemma {:induction false} LastStep(c: Pwma, p: Pins, plan: Plan, s: seq<Pair>)
    requires Inv(c, plan, s) && Quiet(p, plan) && Drained(c)
    ensures var n := Tick(c, p);
      Valid(n) && n.done && !n.busy && |s| == 128 && n.acc == Final(plan, s) && n.operands == plan.operands
  {
    hide Tick, BmValid, ConvertValid, Older, Outcome, Holds, SlotsNext, Expected;
    TickValid(c, p);
    TickControl(c, p);
    OlderEmpty(c.slots, 0);
    forall i | 0 <= i < 256
      ensures Tick(c, p).acc[i] == Final(plan, s)[i]
    {
    }
  }

  // ----- Runs -----

  predicate AllQuiet(ps: seq<Pins>, plan: Plan) {
    forall i :: 0 <= i < |ps| ==> Quiet(ps[i], plan)
  }

  function Run(c: Pwma, ps: seq<Pins>): (e: Pwma)
    requires Valid(c) && forall i :: 0 <= i < |ps| ==> ValidPins(ps[i])
    ensures Valid(e)
  {
    hide Tick, Valid, ValidPins;
    if ps == [] then c
    else
      var q := Run(c, ps[..|ps| - 1]);
      TickValid(q, ps[|ps| - 1]);
      Tick(q, ps[|ps| - 1])
  }

  // busy is high before every edge
  predicate StaysBusy(c: Pwma, ps: seq<Pins>)
    requires Valid(c) && forall i :: 0 <= i < |ps| ==> ValidPins(ps[i])
  {
    ps == [] || (StaysBusy(c, ps[..|ps| - 1]) && Run(c, ps[..|ps| - 1]).busy)
  }

  function Accepted(c: Pwma, ps: seq<Pins>): seq<Pair>
    requires Valid(c) && forall i :: 0 <= i < |ps| ==> ValidPins(ps[i])
  {
    if ps == [] then []
    else Accept(Run(c, ps[..|ps| - 1]), ps[|ps| - 1], Accepted(c, ps[..|ps| - 1]))
  }

  predicate Idle(c: Pwma) {
    Valid(c) && !c.busy && Empty(c.slots)
  }

  lemma {:induction false} StartStep(c: Pwma, p: Pins, plan: Plan)
    requires Idle(c) && p.start && Quiet(p, plan) && plan == Plan(p.job, p.useTomont, c.acc, c.operands)
    ensures Inv(Tick(c, p), plan, [])
  {
    hide Tick, BmValid, ConvertValid, Outcome, Holds, Moved, SlotOk, ValidPins;
    TickValid(c, p);
    TickControl(c, p);
    OlderEmpty(Tick(c, p).slots, 0);
    assert plan.job == p.job && JobValid(p.job) by {
      PinsJob(p);
    }
  }

  lemma PinsJob(p: Pins)
    requires ValidPins(p)
    ensures JobValid(p.job)
  {
  }

  lemma {:induction false} RunKeeps(c: Pwma, ps: seq<Pins>, plan: Plan)
    requires Valid(c) && Inv(c, plan, []) && AllQuiet(ps, plan) && StaysBusy(c, ps)
    ensures var e, s := Run(c, ps), Accepted(c, ps);
      if e.busy then Inv(e, plan, s)
      else e.done && Idle(e) && |s| == 128 && e.acc == Final(plan, s) && e.operands == plan.operands
    decreases |ps|
  {
    hide Tick, Inv, Valid, ValidPins, Final, Drained, Accept;
    if ps == [] {
      InvBusy(c, plan, []);
    } else {
      var front, p := ps[..|ps| - 1], ps[|ps| - 1];
      RunKeeps(c, front, plan);
      var q, s := Run(c, front), Accepted(c, front);
      if Drained(q) {
        LastStep(q, p, plan, s);
        NothingAccepted(q, p, s);
      } else {
        InvStep(q, p, plan, s);
        InvBusy(Tick(q, p), plan, Accept(q, p, s));
      }
    }
  }

  lemma InvBusy(c: Pwma, plan: Plan, s: seq<Pair>)
    requires Inv(c, plan, s)
    ensures c.busy && !c.done && |s| == c.issue <= 128
  {
    hide Older, SlotOk, Expected, BmValid, ConvertValid;
  }

  lemma {:induction false} NothingAccepted(c: Pwma, p: Pins, s: seq<Pair>)
    requires Valid(c) && ValidPins(p) && c.busy && Drained(c) && !p.rst
    ensures Accept(c, p, s) == s && Empty(Tick(c, p).slots)
  {
    hide Tick, BmValid, ConvertValid, AccNext, OperandsNext;
    TickControl(c, p);
    MovedFlows(c, p);
  }

  // done rises only after 128 accepted pairs, and then the selected bank holds every outcome and
  // every other word is as it was
  lemma {:induction false} RunDelivers(c: Pwma, first: Pins, ps: seq<Pins>, plan: Plan)
    requires Idle(c) && first.start && Quiet(first, plan) && AllQuiet(ps, plan)
    requires plan == Plan(first.job, first.useTomont, c.acc, c.operands)
    ensures Valid(Tick(c, first))
    ensures StaysBusy(Tick(c, first), ps) ==>
      (var e, s := Run(Tick(c, first), ps), Accepted(Tick(c, first), ps);
       && e.done == !e.busy
       && (e.done ==> Idle(e) && |s| == 128 && e.acc == Final(plan, s) && e.operands == c.operands))
  {
    hide Tick, Inv, Final, StaysBusy, Run, Accepted, Valid, ValidPins, Empty;
    StartStep(c, first, plan);
    InvValid(Tick(c, first), plan);
    if StaysBusy(Tick(c, first), ps) {
      RunKeeps(Tick(c, first), ps, plan);
      if Run(Tick(c, first), ps).busy {
        InvBusy(Run(Tick(c, first), ps), plan, Accepted(Tick(c, first), ps));
      }
    }
  }

  lemma InvValid(c: Pwma, plan: Plan)
    requires Inv(c, plan, [])
    ensures Valid(c)
  {
    hide Older, SlotOk, Expected, BmValid, ConvertValid;
  }

  // ----- Progress -----

  function Offers(ps: seq<Pins>): nat {
    if ps == [] then 0 else Offers(ps[..|ps| - 1]) + if ps[|ps| - 1].streamValid then 1 else 0
  }

  function Least(x: nat, y: nat): nat {
    if x < y then x else y
  }

  // Ages below this are empty once the last pair has been accepted j edges ago
  predicate ClearBelow(c: Pwma, j: nat) {
    c.issue == 128 && forall d :: 0 <= d < j && d < 20 ==> !c.slots[d].valid
  }

  lemma {:induction false} ClearStep(c: Pwma, p: Pins, j: nat)
    requires Valid(c) && ValidPins(p) && !p.rst && c.busy && ClearBelow(c, j)
    ensures Tick(c, p).busy ==> j < 20 && ClearBelow(Tick(c, p), j + 1)
  {
    hide Tick, BmValid, ConvertValid, AccNext, OperandsNext;
    TickControl(c, p);
    MovedFlows(c, p);
  }

  lemma {:induction false} AcceptsEach(c: Pwma, ps: seq<Pins>, plan: Plan)
    requires Valid(c) && Inv(c, plan, []) && AllQuiet(ps, plan) && StaysBusy(c, ps) && Run(c, ps).busy
    ensures |Accepted(c, ps)| == Run(c, ps).issue == Least(Offers(ps), 128)
    decreases |ps|
  {
    hide Tick, Inv, Valid, ValidPins, Final, Drained;
    RunKeeps(c, ps, plan);
    InvBusy(Run(c, ps), plan, Accepted(c, ps));
    if ps != [] {
      var front := ps[..|ps| - 1];
      AcceptsEach(c, front, plan);
    }
  }

  // Every offered pair is taken until there are 128; 21 edges later the engine is idle
  lemma {:induction false} RunEnds(c: Pwma, ps: seq<Pins>, more: seq<Pins>, plan: Plan)
    requires Valid(c) && Inv(c, plan, []) && AllQuiet(ps + more, plan) && AllQuiet(ps, plan) && StaysBusy(c, ps + more)
    requires Offers(ps) >= 128
    ensures Run(c, ps + more).busy ==> |more| <= 20 && ClearBelow(Run(c, ps + more), |more|)
    ensures |more| >= 21 ==> !Run(c, ps + more).busy
    decreases |more|
  {
    hide Tick, Inv, Valid, ValidPins, Drained, ClearBelow;
    if more == [] {
      assert ps + more == ps;
      if Run(c, ps).busy {
        AcceptsEach(c, ps, plan);
        NoneBelowZero(Run(c, ps));
      }
    } else {
      var front, p := more[..|more| - 1], more[|more| - 1];
      assert (ps + more)[..|ps + more| - 1] == ps + front;
      assert (ps + more)[|ps + more| - 1] == p;
      RunEnds(c, ps, front, plan);
      ClearStep(Run(c, ps + front), p, |front|);
    }
  }

  lemma NoneBelowZero(c: Pwma)
    requires c.issue == 128
    ensures ClearBelow(c, 0)
  {
  }

  // ----- What an outcome is -----

  lemma CentredRom(j: nat)
    requires 64 <= j < 128
    ensures Centre(Rom(j)) == Zeta(j) && -1659 <= Zeta(j) <= 1659
  {
    hide Rom, Zeta;
    RomIsTable(j);
    ZetaBound(j);
  }

  lemma {:induction false} ZetaIsReference(k: nat)
    requires k < 128
    ensures ZetaAt(k) == PairZeta(k) && -1659 <= PairZeta(k) <= 1659
  {
    hide Rom, Zeta, Centre;
    CentredRom(64 + k / 2);
  }

  // The conversion factor 1353 is 2^32 modulo q
  lemma {:induction false} ConvertIs(x: int)
    requires 0 <= x <= Q
    ensures -Q < Mont(MulTomont(x)) < Q && Cong(Mont(MulTomont(x)), 65536 * x)
  {
    hide Mont, Cong, MontgomeryReduce;
    MontIsReference(1353 * x);
    var t := Mont(1353 * x);
    CongIntro(1353 * x, (65536 * x) * 65536, -1290167 * x);
    CongTrans(t * 65536, 1353 * x, (65536 * x) * 65536);
    CongCancelMont(t, 65536 * x);
  }

  function Factor(tomont: bool): int {
    if tomont then 65536 else 1
  }

  lemma {:induction false} TermIs(r: int, tomont: bool)
    requires Fits16(r)
    ensures var p := Converted(Pair(FloorBarrett(r), 0), tomont);
      -Q < p.c0 <= Q && Cong(p.c0, Factor(tomont) * r)
    ensures var p := Converted(Pair(0, FloorBarrett(r)), tomont);
      -Q < p.c1 <= Q && Cong(p.c1, Factor(tomont) * r)
  {
    hide FloorBarrett, Mont, MulTomont, Cong;
    FloorBarrettRange(r);
    if tomont {
      ConvertIs(FloorBarrett(r));
      CongRefl(65536);
      CongMul(65536, 65536, FloorBarrett(r), r);
      CongTrans(Mont(MulTomont(FloorBarrett(r))), 65536 * FloorBarrett(r), 65536 * r);
    }
  }

  lemma MergeIs(accumulate: bool, prior: int, x: int)
    requires -Q < x <= Q && (accumulate ==> 0 <= prior < Q)
    ensures 0 <= Merge1(accumulate, prior, x) < Q
    ensures Cong(Merge1(accumulate, prior, x), (if accumulate then prior else 0) + x)
  {
    hide Cong;
    var sum := if accumulate then prior + x else x;
    var r := Merge1(accumulate, prior, x);
    CongIntro(r, sum, if r == sum then 0 else if r == sum + Q then 1 else -1);
  }

  // Canonical, and congruent to the old value plus the reference basemul of the pair
  lemma {:induction false} OutcomeIs(plan: Plan, k: nat, s: Pair)
    requires JobValid(plan.job) && k < 128
    requires plan.job.accumulate ==> 0 <= PriorAt(plan, k).c0 < Q && 0 <= PriorAt(plan, k).c1 < Q
    ensures var o, a, b := Outcome(plan, k, s), OperandAt(plan, k), PriorAt(plan, k);
      var r := BasemulC(a.c0, a.c1, s.c0, s.c1, PairZeta(k));
      && 0 <= o.c0 < Q && 0 <= o.c1 < Q
      && Cong(o.c0, (if plan.job.accumulate then b.c0 else 0) + Factor(plan.tomont) * r.0)
      && Cong(o.c1, (if plan.job.accumulate then b.c1 else 0) + Factor(plan.tomont) * r.1)
  {
    hide BasemulC, FloorBarrett, Mont, MulTomont, Cong, Merge1, Base, PairZeta, ZetaAt, OperandAt, PriorAt;
    var a, b, acc := OperandAt(plan, k), PriorAt(plan, k), plan.job.accumulate;
    var r := BasemulC(a.c0, a.c1, s.c0, s.c1, PairZeta(k));
    ZetaIsReference(k);
    BaseIsReference(Input(plan, k, s));
    assert Base(Input(plan, k, s)) == Pair(FloorBarrett(r.0), FloorBarrett(r.1));
    TermIs(r.0, plan.tomont);
    TermIs(r.1, plan.tomont);
    var t := Term(plan, k, s);
    MergeIs(acc, b.c0, t.c0);
    MergeIs(acc, b.c1, t.c1);
    MergeSum(Merge1(acc, b.c0, t.c0), if acc then b.c0 else 0, t.c0, Factor(plan.tomont) * r.0);
    MergeSum(Merge1(acc, b.c1, t.c1), if acc then b.c1 else 0, t.c1, Factor(plan.tomont) * r.1);
  }

  lemma MergeSum(o: int, b: int, t: int, r: int)
    requires Cong(o, b + t) && Cong(t, r)
    ensures Cong(o, b + r)
  {
    hide Cong;
    CongRefl(b);
    CongAdd(b, b, t, r);
    CongTrans(o, b + t, b + r);
  }
}
