/** The sponge controller never stops by itself: every edge that does not wait for a message word,
    or for the consumer of its output, brings it closer to its next result. */
module RtlSpongeProgress {
  import opened Sponge
  import opened KeccakPerm
  import opened RtlSponge
  import opened RtlSpongeProof

  // ----- The permutation core -----

  // Running, or announcing its result
  predicate Busy(f: Core) {
    match f.st
    case PROCESS => f.round < 24 && !f.done
    case FINISH => !f.done
    case CORE_IDLE => f.done
  }

  // Edges until the controller has seen the result
  function CoreLeft(f: Core): nat {
    match f.st
    case PROCESS => if f.round < 24 then 26 - f.round else 0
    case FINISH => 2
    case CORE_IDLE => 1
  }

  lemma CoreFalls(f: Core, m: Command)
    requires CommandOk(m) && CoreOk(f) && NoOp(m) && Busy(f) && !f.done
    ensures Busy(CoreTick(f, m)) && CoreLeft(CoreTick(f, m)) == CoreLeft(f) - 1
  {
    hide Round;
  }

  lemma CoreStarts(f: Core, m: Command)
    requires CommandOk(m) && CoreOk(f) && f.st == CORE_IDLE && m.start && !m.clear && !m.load && !m.xor && !m.pad
    ensures Busy(CoreTick(f, m)) && CoreLeft(CoreTick(f, m)) == 26
  {
  }

  // ----- Hashing -----

  // What the invariant says about the controller alone
  predicate Shape(c: Ctl) {
    match c.state
    case PERMUTE_MORE_WAIT => Busy(c.f)
    case PERMUTE_FIN_WAIT => Busy(c.f)
    case HASH_STREAM2P => Busy(c.f) && c.mode == HASH_PRF3
    case HASH_STREAM1 => c.f.st == CORE_IDLE && Streams(c.mode) && c.outValid
      && c.outIdx <= (if c.mode == HASH_PRF2 then 15 else 16)
    case HASH_STREAM2_GO => c.f.st == CORE_IDLE && c.mode == HASH_PRF3
    case HASH_STREAM2 => c.f.st == CORE_IDLE && c.outValid && 17 <= c.outIdx <= 23
    case ABSORB_STREAM => c.f.st == CORE_IDLE && !c.fullBlock
    case IDLE => true
    case XOF_PERMUTE_GO => false
    case XOF_PERMUTE_WAIT => false
    case XOF_WORD_OUT => false
    case XOF_WAIT_NEXT => false
    case _ => c.f.st == CORE_IDLE
  }

  // The last word has been accepted
  predicate Closed(c: Ctl) {
    match c.state
    case ABSORB_STREAM => false
    case ABSORB_BUF => c.fullBlock
    case PERMUTE_MORE_GO => c.fullBlock
    case PERMUTE_MORE_WAIT => c.fullBlock
    case _ => true
  }

  // Waiting for a message word, or for the consumer
  predicate Waits(c: Ctl, p: Pins) {
    || (c.state == ABSORB_STREAM && !AcceptWord(c, p))
    || ((c.state == HASH_STREAM1 || c.state == HASH_STREAM2) && !p.outReady)
  }

  // Words to put out, with the second permutation of PRF3
  function Tail(m: Mode): nat {
    match m
    case HASH_PRF2 => 16
    case HASH_PRF3 => 51
    case _ => 0
  }

  // Edges until the next message word can be taken, or until the hash is finished
  function Left(c: Ctl): int {
    match c.state
    case ABSORB_BUF => 28 + if c.fullBlock then 81 else 0
    case PERMUTE_MORE_GO => 27 + if c.fullBlock then 81 else 0
    case PERMUTE_MORE_WAIT => CoreLeft(c.f) + if c.fullBlock then 81 else 0
    case PADDING => 81
    case ABSORB_FINAL => 80
    case PERMUTE_FIN_GO => 79
    case PERMUTE_FIN_WAIT => 52 + CoreLeft(c.f)
    case SQUEEZE1 => 1 + Tail(c.mode)
    case HASH_STREAM1 => Tail(c.mode) - c.outIdx
    case HASH_STREAM2_GO => 34
    case HASH_STREAM2P => 7 + CoreLeft(c.f)
    case HASH_STREAM2 => 24 - c.outIdx
    case _ => 0
  }

  predicate Moved(c: Ctl, t: Ctl) {
    Shape(t) && Left(t) < Left(c) && (Closed(c) ==> Closed(t))
  }

  lemma IdleStays(f: Core, m: Command)
    requires CommandOk(m) && CoreOk(f) && f.st == CORE_IDLE && !m.start
    ensures CoreTick(f, m).st == CORE_IDLE
  {
    hide Loaded, XorLane, Padded;
  }

  // The controller registers that matter here, in the states that pass on unconditionally
  lemma PassTick(c: Ctl, p: Pins)
    requires CtlOk(c) && Calm(p)
    requires c.state in {ABSORB_BUF, PERMUTE_MORE_GO, PADDING, ABSORB_FINAL, PERMUTE_FIN_GO, HASH_STREAM2_GO}
    ensures Tick(c, p).fullBlock == c.fullBlock
  {
    hide CommandOf, CoreTick, NextWord, AcceptWord, Tick, Begin, TakeWord, AfterBlock, FirstOut, Stream1Out,
      SecondOut, Stream2Out, FirstXof, NextXof;
    CalmShape(c, p);
  }

  lemma WaitFlag(c: Ctl, p: Pins)
    requires CtlOk(c) && Calm(p) && c.state == PERMUTE_MORE_WAIT
    ensures var t := Tick(c, p);
      if !c.f.done then t.state == c.state && t.fullBlock == c.fullBlock
      else !t.fullBlock && t.state == if c.fullBlock then PADDING else ABSORB_STREAM
  {
    hide CommandOf, CoreTick, NextWord, AcceptWord, Tick, Begin, TakeWord, FirstOut, Stream1Out, SecondOut,
      Stream2Out, FirstXof, NextXof, Onward;
    CalmShape(c, p);
  }

  lemma {:induction false} GoFalls(c: Ctl, p: Pins)
    requires CtlOk(c) && Calm(p) && Shape(c)
    requires c.state == PERMUTE_MORE_GO || c.state == PERMUTE_FIN_GO || c.state == HASH_STREAM2_GO
    ensures Moved(c, Tick(c, p))
  {
    hide CommandOf, CoreTick, NextWord, AcceptWord, Tick, Busy, CoreLeft, CtlOk, Calm;
    CalmTick(c, p);
    MoveTick(c, p);
    PassTick(c, p);
    NoWord(c, p);
    CommandOff(c, p);
    CoreParts(c, p);
    CoreStarts(c.f, CommandOf(c, p));
  }

  lemma DoneLeft(f: Core)
    requires Busy(f) && f.done
    ensures CoreLeft(f) == 1 && f.st == CORE_IDLE
  {
  }

  // The core's side of an edge in a waiting state
  lemma {:induction false} CoreWaits(c: Ctl, p: Pins)
    requires CtlOk(c) && Calm(p) && Busy(c.f)
    requires c.state == PERMUTE_MORE_WAIT || c.state == PERMUTE_FIN_WAIT || c.state == HASH_STREAM2P
    ensures CoreLeft(c.f) >= 1
    ensures if c.f.done then Tick(c, p).f.st == CORE_IDLE
            else Busy(Tick(c, p).f) && CoreLeft(Tick(c, p).f) == CoreLeft(c.f) - 1
  {
    hide CommandOf, CoreTick, AcceptWord, Tick, Busy, CoreLeft, CtlOk, Calm;
    CalmTick(c, p);
    NoWord(c, p);
    CommandOff(c, p);
    CoreParts(c, p);
    if c.f.done {
      DoneLeft(c.f);
      IdleStays(c.f, CommandOf(c, p));
    } else {
      CoreFalls(c.f, CommandOf(c, p));
    }
  }

  lemma {:induction false} MoreWaitFalls(c: Ctl, p: Pins)
    requires CtlOk(c) && Calm(p) && Shape(c) && c.state == PERMUTE_MORE_WAIT
    ensures Moved(c, Tick(c, p))
  {
    hide Tick, Busy, CoreLeft, CtlOk, Calm;
    WaitFlag(c, p);
    CoreWaits(c, p);
  }

  lemma {:induction false} FinalWaitFalls(c: Ctl, p: Pins)
    requires CtlOk(c) && Calm(p) && Shape(c) && (c.state == PERMUTE_FIN_WAIT || c.state == HASH_STREAM2P)
    ensures Moved(c, Tick(c, p))
  {
    hide Tick, Busy, CoreLeft, CtlOk, Calm, NextWord;
    if c.state == PERMUTE_FIN_WAIT {
      WaitTick(c, p);
    } else {
      SecondWaitTick(c, p);
    }
    CoreWaits(c, p);
    ModeKept(c, p);
  }

  lemma {:induction false} PassFalls(c: Ctl, p: Pins)
    requires CtlOk(c) && Calm(p) && Shape(c) && (c.state == ABSORB_BUF || c.state == PADDING || c.state == ABSORB_FINAL)
    ensures Moved(c, Tick(c, p))
  {
    hide CommandOf, CoreTick, AcceptWord, Tick, Busy, CoreLeft, CtlOk, Calm;
    CalmTick(c, p);
    MoveTick(c, p);
    PassTick(c, p);
    NoStart(c, p);
    CoreParts(c, p);
    IdleStays(c.f, CommandOf(c, p));
  }

  lemma NoStart(c: Ctl, p: Pins)
    requires CtlOk(c) && Calm(p) && c.state in {ABSORB_STREAM, ABSORB_BUF, PADDING, ABSORB_FINAL, SQUEEZE1}
    ensures !CommandOf(c, p).start
  {
    hide CommandOf, AcceptWord, Masked, Shifted;
    CalmCommand(c, p);
  }

  lemma {:induction false} SqueezeFalls(c: Ctl, p: Pins)
    requires CtlOk(c) && Calm(p) && Shape(c) && c.state == SQUEEZE1
    ensures Moved(c, Tick(c, p))
  {
    hide Tick, Busy, CoreLeft, CtlOk, Calm, NextWord;
    SqueezeTick(c, p);
    IdleEdge(c, p);
  }

  lemma {:induction false} OutputFalls(c: Ctl, p: Pins)
    requires CtlOk(c) && Calm(p) && Shape(c) && (c.state == HASH_STREAM1 || c.state == HASH_STREAM2)
    ensures if p.outReady then Moved(c, Tick(c, p)) else Shape(Tick(c, p)) && Left(Tick(c, p)) == Left(c)
    ensures Closed(Tick(c, p))
  {
    hide Tick, Busy, CoreLeft, CtlOk, Calm, NextWord;
    if c.state == HASH_STREAM1 {
      Stream1Tick(c, p);
      IdleEdge(c, p);
    } else {
      Stream2Tick(c, p);
      IdleEdge(c, p);
    }
  }

  // The core is idle while words leave
  lemma IdleEdge(c: Ctl, p: Pins)
    requires CtlOk(c) && Calm(p) && c.f.st == CORE_IDLE
    requires c.state == SQUEEZE1 || c.state == HASH_STREAM1 || c.state == HASH_STREAM2
    ensures Tick(c, p).f.st == CORE_IDLE
  {
    hide CommandOf, CoreTick, AcceptWord, Tick, CtlOk, Calm;
    CalmTick(c, p);
    NoWord(c, p);
    CommandOff(c, p);
    CoreParts(c, p);
    IdleStays(c.f, CommandOf(c, p));
  }

  // A message word: at most 29 edges to the next one, or 110 to the end, this one included
  lemma {:induction false} WordEffect(c: Ctl, p: Pins)
    requires CtlOk(c) && Calm(p) && Shape(c) && c.state == ABSORB_STREAM
    ensures var t := Tick(c, p);
      && Shape(t) && (AcceptWord(c, p) && p.inLast ==> Closed(t))
      && Left(t) <= (if AcceptWord(c, p) then 28 + (if p.inLast then 81 else 0) else 0)
  {
    hide CommandOf, CoreTick, AcceptWord, Tick, Busy, CoreLeft, CtlOk, Calm, RateOf, InBytes;
    CalmTick(c, p);
    NoStart(c, p);
    CoreParts(c, p);
    IdleStays(c.f, CommandOf(c, p));
    WordFlag(c, p);
  }

  lemma WordFlag(c: Ctl, p: Pins)
    requires CtlOk(c) && Calm(p) && c.state == ABSORB_STREAM && !c.fullBlock
    ensures var t := Tick(c, p);
      if !AcceptWord(c, p) then t.state == ABSORB_STREAM && !t.fullBlock
      else if c.cnt + InBytes(p) == RateOf(c.mode) then t.state == ABSORB_BUF && t.fullBlock == p.inLast
      else !t.fullBlock && t.state == if p.inLast then PADDING else ABSORB_STREAM
  {
    hide CommandOf, CoreTick, Advance, AcceptWord, Tick, CtlOk, RateOf, InBytes, Calm;
    CalmShape(c, p);
    FullAfter(c, p);
    if AcceptWord(c, p) {
      WordTick(c, p);
    } else {
      StallTick(c, p);
    }
  }

  lemma FullAfter(c: Ctl, p: Pins)
    requires CtlOk(c) && c.state == ABSORB_STREAM
    ensures AcceptWord(c, p) && p.inLast && c.cnt + InBytes(p) == RateOf(c.mode) ==> Advance(c, p).fullBlock
    ensures !(AcceptWord(c, p) && p.inLast && c.cnt + InBytes(p) == RateOf(c.mode)) ==>
        Advance(c, p).fullBlock == c.fullBlock
  {
    hide AcceptWord, CoreOk, RateOf, InBytes, NextWord, Begin, AfterBlock, FirstOut, Stream1Out, SecondOut,
      Stream2Out, FirstXof, NextXof, Onward;
    if AcceptWord(c, p) {
      if p.inLast {
        if c.cnt + InBytes(p) == RateOf(c.mode) {
        }
      }
    }
  }

  // In the input state every well-formed word is taken the moment it is offered
  lemma {:induction false} WordTaken(s: System, p: Pins)
    requires Inv(s) && s.c.state == ABSORB_STREAM && PinsOk(p)
    requires p.inValid && InBytes(p) <= 8 && (InBytes(p) == 8 || p.inLast)
    ensures AcceptWord(s.c, p)
  {
    hide Absorbed, Final, Finalized, KeccakF, Waiting;
  }

  lemma LeftPositive(c: Ctl)
    requires Shape(c) && c.state != IDLE && c.state != ABSORB_STREAM
    ensures Left(c) >= 1
  {
  }

  lemma RestEdge(c: Ctl, p: Pins)
    requires CtlOk(c) && Calm(p) && c.state == IDLE
    ensures Tick(c, p).state == IDLE
  {
    hide Tick, CtlOk, Calm;
    RestTick(c, p);
  }

  // One edge of a hash
  lemma {:induction false} EdgeEffect(c: Ctl, p: Pins)
    requires CtlOk(c) && Calm(p) && Shape(c)
    ensures var t := Tick(c, p);
      && Shape(t) && (Closed(c) ==> Closed(t)) && (AcceptWord(c, p) && p.inLast ==> Closed(t))
      && (c.state == IDLE ==> t.state == IDLE)
      && Left(t) <= (if AcceptWord(c, p) then 28 + (if p.inLast then 81 else 0) else if Waits(c, p) then Left(c)
                     else if c.state == IDLE then 0 else Left(c) - 1)
  {
    hide CtlOk, Calm, Tick, AcceptWord, Left, Shape;
    AcceptState(c, p);
    CalmPins(p);
    match c.state
    case IDLE =>
      RestEdge(c, p);
      IdleShape(Tick(c, p));
    case ABSORB_STREAM =>
      WordEffect(c, p);
      StreamLeft(c);
    case ABSORB_BUF =>
      ShapeIdle(c);
      PassFalls(c, p);
    case PADDING =>
      ShapeIdle(c);
      PassFalls(c, p);
    case ABSORB_FINAL =>
      ShapeIdle(c);
      PassFalls(c, p);
    case PERMUTE_MORE_GO => GoFalls(c, p);
    case PERMUTE_FIN_GO => GoFalls(c, p);
    case HASH_STREAM2_GO => GoFalls(c, p);
    case PERMUTE_MORE_WAIT => MoreWaitFalls(c, p);
    case PERMUTE_FIN_WAIT => FinalWaitFalls(c, p);
    case HASH_STREAM2P => FinalWaitFalls(c, p);
    case SQUEEZE1 => SqueezeFalls(c, p);
    case HASH_STREAM1 => OutputFalls(c, p);
    case HASH_STREAM2 => OutputFalls(c, p);
    case _ => NoXof(c);
  }

  lemma AcceptState(c: Ctl, p: Pins)
    ensures AcceptWord(c, p) ==> c.state == ABSORB_STREAM
  {
  }

  lemma IdleShape(c: Ctl)
    requires c.state == IDLE
    ensures Shape(c) && Left(c) == 0
  {
  }

  lemma StreamLeft(c: Ctl)
    requires c.state == ABSORB_STREAM
    ensures Left(c) == 0
  {
  }

  lemma ShapeIdle(c: Ctl)
    requires Shape(c) && (c.state == ABSORB_BUF || c.state == PADDING || c.state == ABSORB_FINAL)
    ensures c.f.st == CORE_IDLE
  {
  }

  lemma NoXof(c: Ctl)
    requires Shape(c)
    ensures c.state !in {XOF_PERMUTE_GO, XOF_PERMUTE_WAIT, XOF_WORD_OUT, XOF_WAIT_NEXT}
  {
  }

  // ----- Runs of a hash -----

  // Edges that wait for nothing, words taken, and last words taken
  datatype Tally = Tally(moves: nat, words: nat, lasts: nat)

  function Count(s: System, ps: seq<Pins>): Tally
    requires CtlOk(s.c) && forall i :: 0 <= i < |ps| ==> Calm(ps[i])
  {
    if ps == [] then Tally(0, 0, 0)
    else
      var front, p := ps[..|ps| - 1], ps[|ps| - 1];
      var c, n := Run(s, front).c, Count(s, front);
      Tally(n.moves + (if Waits(c, p) then 0 else 1), n.words + (if AcceptWord(c, p) then 1 else 0),
            n.lasts + if AcceptWord(c, p) && p.inLast then 1 else 0)
  }

  // At most 29 moves for each word and 81 more after the last
  lemma {:induction false} MovesBound(s: System, ps: seq<Pins>)
    requires CtlOk(s.c) && Shape(s.c) && s.c.state == ABSORB_STREAM && forall i :: 0 <= i < |ps| ==> Calm(ps[i])
    ensures var t, n := Run(s, ps).c, Count(s, ps);
      && Shape(t) && n.lasts <= 1 && (n.lasts == 1 ==> Closed(t))
      && (t.state == IDLE || n.moves + Left(t) <= 29 * n.words + 81 * n.lasts)
    decreases |ps|
  {
    hide CtlOk, Calm, Tick, AcceptWord, Left, Shape, Waits;
    if ps == [] {
      StreamLeft(s.c);
    } else {
      var front, p := ps[..|ps| - 1], ps[|ps| - 1];
      MovesBound(s, front);
      var q := Run(s, front);
      EdgeEffect(q.c, p);
      CalmPins(p);
      CycleCtl(q, p);
      AcceptState(q.c, p);
      WaitState(q.c, p);
      if q.c.state == ABSORB_STREAM {
        StreamLeft(q.c);
      }
    }
  }

  lemma CalmPins(p: Pins)
    requires Calm(p)
    ensures PinsOk(p)
  {
  }

  lemma WaitState(c: Ctl, p: Pins)
    ensures Waits(c, p) ==> !AcceptWord(c, p) && c.state != IDLE
  {
    AcceptState(c, p);
  }

  lemma StartShape(c: Ctl, p: Pins)
    requires CtlOk(c) && PinsOk(p) && c.state == IDLE && p.start && !p.release && !p.xofReq
    ensures CtlOk(Tick(c, p)) && Shape(Tick(c, p)) && Tick(c, p).state == ABSORB_STREAM
  {
    hide NextWord, AcceptWord, Masked, Shifted, KeccakF;
  }

  // Once the last word is in, 29 moves a word and 81 more finish the hash, whatever the stalls: the
  // controller is in IDLE and holds, or has put out, the bytes of the reference hash
  lemma {:induction false} HashFinishes(c: Ctl, p: Pins, ps: seq<Pins>, k: nat)
    requires CtlOk(c) && PinsOk(p) && c.state == IDLE && p.start && !p.release && !p.xofReq
    requires CtlOk(Tick(c, p)) && forall i :: 0 <= i < |ps| ==> Calm(ps[i])
    requires var n := Count(System(Tick(c, p), [], []), ps);
      n.lasts > 0 && n.moves >= 29 * n.words + 81 && k < OutBytes(p.mode)
    ensures var t := Run(System(Tick(c, p), [], []), ps);
      var h := Hash(KeccakF, RateOf(p.mode), t.fed, SuffixOf(p.mode), OutBytes(p.mode));
      && t.c.state == IDLE
      && (if Streams(p.mode) then 8 * |t.words| == OutBytes(p.mode) && StreamByte(t.words, k) == h[k]
          else ByteAt(t.c.f.lanes, k) == h[k])
  {
    hide KeccakF, Run, Count, Tick, Hash, ByteOf, Left, Shape, OutBytes, Streams, CtlOk;
    var s := System(Tick(c, p), [], []);
    StartShape(c, p);
    MovesBound(s, ps);
    var t := Run(s, ps).c;
    if t.state != IDLE {
      LeftPositive(t);
    }
    HashRun(c, p, ps, k);
  }

  // ----- The XOF stream -----

  predicate XofShape(c: Ctl) {
    match c.state
    case XOF_PERMUTE_GO => c.f.st == CORE_IDLE && !c.xofValid
    case XOF_PERMUTE_WAIT => Busy(c.f) && !c.xofValid
    case XOF_WORD_OUT => c.f.st == CORE_IDLE && c.xofValid && c.xofIdx <= 20
    case XOF_WAIT_NEXT => c.f.st == CORE_IDLE && !c.xofValid
    case _ => false
  }

  // Only the consumer can hold the stream up
  predicate XofWaits(c: Ctl, p: Pins) {
    (c.state == XOF_WORD_OUT || c.state == XOF_WAIT_NEXT) && !p.xofReady
  }

  // Edges to the next word
  function XofLeft(c: Ctl): nat {
    match c.state
    case XOF_WAIT_NEXT => 28
    case XOF_PERMUTE_GO => 27
    case XOF_PERMUTE_WAIT => CoreLeft(c.f)
    case _ => 0
  }

  lemma PhaseShape(c: Ctl, x: Lanes, b: nat, words: seq<Lane>)
    requires XofPhase(c, x, b, words)
    ensures CtlOk(c) && XofShape(c)
    ensures c.state == XOF_WORD_OUT ==> |words| == 21 * b + c.xofIdx
  {
    hide Rest, KeccakF, XofWord, Power;
  }

  lemma {:induction false} XofCore(c: Ctl, p: Pins)
    requires CtlOk(c) && Calm(p) && XofShape(c)
    ensures c.state == XOF_PERMUTE_GO ==> CoreLeft(Tick(c, p).f) == 26
    ensures c.state == XOF_PERMUTE_WAIT && !c.f.done ==> CoreLeft(Tick(c, p).f) == CoreLeft(c.f) - 1
    ensures c.state == XOF_PERMUTE_WAIT ==> CoreLeft(c.f) >= 1
  {
    hide CommandOf, CoreTick, AcceptWord, Tick, Busy, CoreLeft, CtlOk, Calm;
    CalmTick(c, p);
    NoWord(c, p);
    CommandOff(c, p);
    CoreParts(c, p);
    if c.state == XOF_PERMUTE_GO {
      CoreStarts(c.f, CommandOf(c, p));
    } else if c.state == XOF_PERMUTE_WAIT {
      if c.f.done {
        DoneLeft(c.f);
      } else {
        CoreFalls(c.f, CommandOf(c, p));
        BusyLeft(c.f);
      }
    }
  }

  lemma BusyLeft(f: Core)
    requires Busy(f)
    ensures CoreLeft(f) >= 1
  {
  }

  // One edge of the stream: a word leaves, or the next one comes closer
  lemma {:induction false} XofEffect(c: Ctl, p: Pins)
    requires CtlOk(c) && Calm(p) && XofShape(c)
    ensures var t := Tick(c, p);
      if XofWaits(c, p) then XofLeft(t) == XofLeft(c) && !(c.xofValid && p.xofReady)
      else if c.state == XOF_WORD_OUT then c.xofValid && p.xofReady && XofLeft(t) == if c.xofIdx == 20 then 28 else 0
      else XofLeft(t) < XofLeft(c) && !c.xofValid
  {
    hide Tick, Busy, CoreLeft, CtlOk, Calm, NextWord;
    XofCore(c, p);
    if c.state == XOF_WORD_OUT {
      XofOutTick(c, p);
    } else if c.state == XOF_PERMUTE_WAIT {
      XofWaitTick(c, p);
    } else {
      XofMoveTick(c, p);
    }
  }

  function XofMoves(s: XofRun, ps: seq<Pins>): nat
    requires CtlOk(s.c) && forall i :: 0 <= i < |ps| ==> Calm(ps[i])
  {
    if ps == [] then 0
    else XofMoves(s, ps[..|ps| - 1]) + if XofWaits(RunXof(s, ps[..|ps| - 1]).c, ps[|ps| - 1]) then 0 else 1
  }

  // One move for each word, 28 more for each finished block, 27 for the first
  function Allowance(n: nat): nat {
    n + 28 * (n / 21) + 27
  }

  lemma AllowanceNext(b: nat, i: nat)
    requires i <= 20
    ensures Allowance(21 * b + i + 1) == Allowance(21 * b + i) + 1 + if i == 20 then 28 else 0
  {
    assert (21 * b + i) / 21 == b && (21 * b + i + 1) / 21 == b + if i == 20 then 1 else 0;
  }

  lemma {:induction false} XofMovesBound(s: XofRun, ps: seq<Pins>, x: Lanes)
    requires XofPhase(s.c, x, s.blocks, s.words) && s.c.state == XOF_PERMUTE_GO && s.words == []
    requires CtlOk(s.c) && forall i :: 0 <= i < |ps| ==> Calm(ps[i])
    ensures var t := RunXof(s, ps);
      XofMoves(s, ps) + XofLeft(t.c) <= Allowance(|t.words|)
    decreases |ps|
  {
    hide CtlOk, Calm, Tick, XofPhase, XofLeft, Allowance, XofWaits;
    if ps == [] {
      FirstLeft(s.c);
    } else {
      var front, p := ps[..|ps| - 1], ps[|ps| - 1];
      XofMovesBound(s, front, x);
      var q := RunXof(s, front);
      RunXofKeeps(s, front, x);
      PhaseShape(q.c, x, q.blocks, q.words);
      XofEffect(q.c, p);
      if q.c.state == XOF_WORD_OUT {
        AllowanceNext(q.blocks, q.c.xofIdx);
        WordLeft(q.c);
      }
    }
  }

  lemma FirstLeft(c: Ctl)
    requires c.state == XOF_PERMUTE_GO
    ensures XofLeft(c) == 27 == Allowance(0)
  {
  }

  lemma WordLeft(c: Ctl)
    requires c.state == XOF_WORD_OUT
    ensures XofLeft(c) == 0
  {
  }

  lemma AllowanceGrows(n: nat, m: nat)
    requires n <= m
    ensures Allowance(n) <= Allowance(m)
  {
  }

  lemma XofStart(c: Ctl, p: Pins)
    requires CtlOk(c) && PinsOk(p) && AcceptXof(c, p) && c.f.st == CORE_IDLE
    ensures Tick(c, p).state == XOF_PERMUTE_GO
  {
    hide NextWord, AcceptWord, Masked, Shifted, KeccakF, Loaded, Advance;
  }

  // Enough moves put out any number of words, and they are those of SHAKE128
  lemma {:induction false} XofDelivers(c: Ctl, p: Pins, ps: seq<Pins>, n: nat, k: nat)
    requires CtlOk(c) && PinsOk(p) && AcceptXof(c, p) && c.f.st == CORE_IDLE
    requires CtlOk(Tick(c, p)) && forall i :: 0 <= i < |ps| ==> Calm(ps[i])
    requires XofMoves(XofRun(Tick(c, p), 0, []), ps) > Allowance(n) && k < 8 * (n + 1)
    ensures var words := RunXof(XofRun(Tick(c, p), 0, []), ps).words;
      |words| > n && StreamByte(words, k) == Hash(KeccakF, 168, Request(p.seed, p.index), 0x1F, 8 * |words|)[k]
  {
    hide KeccakF, Tick, RunXof, XofMoves, Hash, Request, ByteOf, XofPhase, Allowance, Loaded, CtlOk, AcceptXof;
    var x := Loaded(p.seed, p.index);
    XofAccept(c, p);
    XofStart(c, p);
    XofMovesBound(XofRun(Tick(c, p), 0, []), ps, x);
    var words := RunXof(XofRun(Tick(c, p), 0, []), ps).words;
    if |words| <= n {
      AllowanceGrows(|words|, n);
    }
    XofIsShake(c, p, ps, k);
  }
}
