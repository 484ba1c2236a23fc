/** The hardware sponge computes the hash of the words it was fed, for every mode, word protocol and
    output back-pressure, and its XOF stream is the SHAKE128 output. */
module RtlSpongeProof {
  import opened Sponge
  import opened KeccakPerm
  import opened RtlSponge

  // ----- A word fed with a byte count -----

  function WordBytes(data: Lane, n: nat): (b: seq<bv8>)
    requires n <= 8
    ensures |b| == n
  {
    seq(n, k requires 0 <= k < n => ByteOf(data, k))
  }

  // The first n bytes of a word, in place
  function Kept(data: Lane, n: nat): Lane
    requires n <= 8
  {
    if n == 0 then 0 else data & ByteMask(n)
  }

  lemma NextMask0(data: Lane)
    ensures Xor(Kept(data, 0), Shifted(ByteOf(data, 0), 0)) == Kept(data, 1)
  {
  }

  lemma NextMask1(data: Lane)
    ensures Xor(Kept(data, 1), Shifted(ByteOf(data, 1), 1)) == Kept(data, 2)
  {
  }

  lemma NextMask2(data: Lane)
    ensures Xor(Kept(data, 2), Shifted(ByteOf(data, 2), 2)) == Kept(data, 3)
  {
  }

  lemma NextMask3(data: Lane)
    ensures Xor(Kept(data, 3), Shifted(ByteOf(data, 3), 3)) == Kept(data, 4)
  {
  }

  lemma NextMask4(data: Lane)
    ensures Xor(Kept(data, 4), Shifted(ByteOf(data, 4), 4)) == Kept(data, 5)
  {
  }

  lemma NextMask5(data: Lane)
    ensures Xor(Kept(data, 5), Shifted(ByteOf(data, 5), 5)) == Kept(data, 6)
  {
  }

  lemma NextMask6(data: Lane)
    ensures Xor(Kept(data, 6), Shifted(ByteOf(data, 6), 6)) == Kept(data, 7)
  {
  }

  lemma NextMask7(data: Lane)
    ensures Xor(Kept(data, 7), Shifted(ByteOf(data, 7), 7)) == Kept(data, 8)
  {
  }

  lemma NextMask(data: Lane, k: nat)
    requires k < 8
    ensures Xor(Kept(data, k), Shifted(ByteOf(data, k), k)) == Kept(data, k + 1)
  {
    hide Xor, Kept, Shifted, ByteOf;
    match k
    case 0 => NextMask0(data);
    case 1 => NextMask1(data);
    case 2 => NextMask2(data);
    case 3 => NextMask3(data);
    case 4 => NextMask4(data);
    case 5 => NextMask5(data);
    case 6 => NextMask6(data);
    case _ => NextMask7(data);
  }

  lemma XorNothing(u: Lane, data: Lane)
    ensures Xor(u, Kept(data, 0)) == u
  {
  }

  // Xoring the first n bytes of a word is xoring the masked word
  lemma {:induction false} XorFirstMasked(u: Lane, data: Lane, b: seq<bv8>, n: nat)
    requires |b| == 8 && n <= 8 && forall k :: 0 <= k < 8 ==> b[k] == ByteOf(data, k)
    ensures XorFirst(u, b, n) == Xor(u, Kept(data, n))
  {
    hide Xor, Kept, Shifted, ByteOf;
    if n == 0 {
      XorNothing(u, data);
    } else {
      XorFirstMasked(u, data, b, n - 1);
      NextMask(data, n - 1);
      XorAssoc(u, Kept(data, n - 1), Shifted(b[n - 1], n - 1));
    }
  }

  // Feeding the counted bytes of a word is one masked exclusive or into its lane
  lemma {:induction false} MaskedLane(s: Lanes, i: nat, data: Lane, n: nat)
    requires i < 25 && 1 <= n <= 8
    ensures XorBytes(s, 8 * i, WordBytes(data, n)) == XorLane(s, i, Masked(data, n))
  {
    hide Shifted, XorBytes, XorFirst, Xor, ByteMask, ByteOf;
    var b := WordBytes(data, 8);
    XorUpTo(s, i, b, n);
    assert b[..n] == WordBytes(data, n);
    XorFirstMasked(s[i], data, b, n);
  }

  // ----- The core runs the permutation -----

  // The rounds still to come
  function Rest(s: Lanes, k: nat): Lanes
    requires k <= 24
    decreases 24 - k
  {
    if k == 24 then s else Rest(Round(s, RoundConstant(k)), k + 1)
  }

  lemma {:induction false} RestOfRounds(s: Lanes, k: nat)
    requires k <= 24
    ensures Rest(Rounds(s, k), k) == KeccakF(s)
    decreases 24 - k
  {
    hide Round;
    if k < 24 {
      RestOfRounds(s, k + 1);
    }
  }

  lemma RestIsKeccak(s: Lanes)
    ensures Rest(s, 0) == KeccakF(s)
  {
    RestOfRounds(s, 0);
  }

  // The core is on its way to x, or has just announced it
  predicate Waiting(f: Core, x: Lanes) {
    match f.st
    case PROCESS => f.round < 24 && !f.done && Rest(f.lanes, f.round) == x
    case FINISH => !f.done && f.lanes == x
    case CORE_IDLE => f.done && f.lanes == x
  }

  predicate NoOp(m: Command) {
    !m.clear && !m.load && !m.xor && !m.pad && !m.start
  }

  lemma WaitStep(f: Core, m: Command, x: Lanes)
    requires CommandOk(m) && CoreOk(f) && Waiting(f, x) && NoOp(m) && !f.done
    ensures Waiting(CoreTick(f, m), x)
  {
    hide Round, RcRom, RoundConstant;
    if f.st == PROCESS {
      RomIsRoundConstant(f.round);
    }
    if f.st == PROCESS && f.round == 23 {
      assert Rest(Round(f.lanes, RoundConstant(23)), 24) == Round(f.lanes, RoundConstant(23));
    }
  }

  lemma GoStep(f: Core, m: Command)
    requires CommandOk(m) && CoreOk(f) && f.st == CORE_IDLE && m.start && !m.clear && !m.load && !m.xor && !m.pad
    ensures Waiting(CoreTick(f, m), KeccakF(f.lanes))
  {
    RestIsKeccak(f.lanes);
  }

  lemma IdleStep(f: Core, m: Command)
    requires CommandOk(m) && CoreOk(f) && f.st == CORE_IDLE && NoOp(m)
    ensures CoreTick(f, m).st == CORE_IDLE && CoreTick(f, m).lanes == f.lanes && !CoreTick(f, m).done
  {
  }

  // ----- Hashing -----

  function Absorbed(mode: Mode, fed: seq<bv8>): (y: Sponge)
    ensures y.pos < RateOf(mode)
  {
    Absorb(KeccakF, RateOf(mode), Sponge(Zeros(), 0), fed)
  }

  function Finalized(mode: Mode, fed: seq<bv8>): Lanes {
    Finalize(RateOf(mode), Absorbed(mode, fed), SuffixOf(mode))
  }

  // The state the first output block is read from
  function Final(mode: Mode, fed: seq<bv8>): Lanes {
    KeccakF(Finalized(mode, fed))
  }

  // The controller, the bytes it has accepted, and the words taken from its output stream
  datatype System = System(c: Ctl, fed: seq<bv8>, words: seq<Lane>)

  function Cycle(s: System, p: Pins): System
    requires CtlOk(s.c) && PinsOk(p)
  {
    System(Tick(s.c, p),
           if AcceptWord(s.c, p) then s.fed + WordBytes(p.inData, InBytes(p)) else s.fed,
           if s.c.outValid && p.outReady then s.words + [s.c.outData] else s.words)
  }

  predicate Idle(f: Core, x: Lanes) {
    f.st == CORE_IDLE && f.lanes == x
  }

  predicate Streams(m: Mode) {
    m == HASH_PRF2 || m == HASH_PRF3
  }

  // What the controller has to do before the message is complete
  predicate InputPhase(s: System) {
    var c, a := s.c, Absorbed(s.c.mode, s.fed);
    && !c.outValid && s.words == []
    && match c.state
       case ABSORB_STREAM => Idle(c.f, a.s) && c.cnt == a.pos && c.cnt % 8 == 0
       case ABSORB_BUF => c.f.st == CORE_IDLE && KeccakF(c.f.lanes) == a.s && a.pos == 0
       case PERMUTE_MORE_GO => c.f.st == CORE_IDLE && KeccakF(c.f.lanes) == a.s && a.pos == 0
       case PERMUTE_MORE_WAIT => Waiting(c.f, a.s) && a.pos == 0
       case PADDING => Idle(c.f, a.s) && c.cnt == a.pos
       case ABSORB_FINAL => Idle(c.f, Finalized(c.mode, s.fed))
       case PERMUTE_FIN_GO => Idle(c.f, Finalized(c.mode, s.fed))
       case PERMUTE_FIN_WAIT => Waiting(c.f, Final(c.mode, s.fed))
       case SQUEEZE1 => Idle(c.f, Final(c.mode, s.fed))
       case _ => false
  }

  // And after
  predicate OutputPhase(s: System) {
    var c, x := s.c, Final(s.c.mode, s.fed);
    match c.state
    case HASH_STREAM1 =>
      && Idle(c.f, x) && Streams(c.mode) && c.outValid && c.outIdx <= (if c.mode == HASH_PRF2 then 15 else 16)
      && c.outData == x[c.outIdx] && s.words == x[..c.outIdx]
    case HASH_STREAM2_GO => Idle(c.f, x) && c.mode == HASH_PRF3 && !c.outValid && s.words == x[..17]
    case HASH_STREAM2P => Waiting(c.f, KeccakF(x)) && c.mode == HASH_PRF3 && !c.outValid && s.words == x[..17]
    case HASH_STREAM2 =>
      && Idle(c.f, KeccakF(x)) && c.mode == HASH_PRF3 && c.outValid && 17 <= c.outIdx <= 23
      && c.outData == KeccakF(x)[c.outIdx - 17] && s.words == x[..17] + KeccakF(x)[..c.outIdx - 17]
    case IDLE =>
      && c.f.st == CORE_IDLE && !c.outValid
      && (if c.mode == HASH_PRF3 then c.f.lanes == KeccakF(x) && s.words == x[..17] + KeccakF(x)[..7]
          else c.f.lanes == x && s.words == if c.mode == HASH_PRF2 then x[..16] else [])
    case _ => false
  }

  predicate Inv(s: System) {
    CtlOk(s.c) && (InputPhase(s) || OutputPhase(s))
  }

  // During a hash: no release, no new start, no XOF request
  predicate Calm(p: Pins) {
    PinsOk(p) && !p.release && !p.start && !p.xofReq
  }

  predicate Ranges(c: Ctl) {
    c.cnt <= 136 && c.outIdx < 32 && c.xofIdx < 32
  }

  // An edge keeps the counters in range; only a start changes the mode
  predicate Sane(c: Ctl, t: Ctl) {
    Ranges(t) && t.mode == c.mode
  }

  lemma TakeWordSane(c: Ctl, p: Pins)
    requires CtlOk(c) && PinsOk(p)
    ensures Sane(c, TakeWord(c, p))
  {
    hide CoreOk, AcceptWord, InBytes, RateOf;
    if AcceptWord(c, p) {
      WordBounds(c, p);
    }
  }

  lemma Stream1Sane(c: Ctl, p: Pins)
    requires CtlOk(c)
    ensures Sane(c, Stream1Out(c, p))
  {
    hide Up, NextWord, CoreOk;
  }

  lemma Stream2Sane(c: Ctl, p: Pins)
    requires CtlOk(c)
    ensures Sane(c, Stream2Out(c, p))
  {
    hide Up, NextWord, CoreOk;
  }

  lemma NextXofSane(c: Ctl, p: Pins)
    requires CtlOk(c)
    ensures Sane(c, NextXof(c, p))
  {
    hide Up, NextWord, CoreOk;
  }

  lemma FirstSane(c: Ctl)
    requires CtlOk(c)
    ensures Sane(c, FirstOut(c)) && Sane(c, SecondOut(c)) && Sane(c, FirstXof(c))
  {
    hide NextWord, CoreOk;
  }

  lemma OnwardSane(c: Ctl, st: State)
    requires CtlOk(c)
    ensures Sane(c, AfterBlock(c)) && Sane(c, c.(done := false, state := st))
  {
    hide CoreOk;
  }

  lemma BeginSane(c: Ctl, p: Pins)
    requires CtlOk(c)
    ensures Ranges(Begin(c, p)) && (!p.start ==> Begin(c, p).mode == c.mode)
  {
    hide CoreOk;
  }

  lemma AdvanceSane(c: Ctl, p: Pins)
    requires CtlOk(c) && PinsOk(p)
    ensures Ranges(Advance(c, p)) && (!p.start ==> Advance(c, p).mode == c.mode)
  {
    hide CtlOk, Ranges, Begin, TakeWord, AfterBlock, FirstOut, Stream1Out, SecondOut, Stream2Out, FirstXof, NextXof,
      Onward;
    match c.state
    case IDLE => BeginSane(c, p);
    case ABSORB_STREAM => TakeWordSane(c, p);
    case HASH_STREAM1 => Stream1Sane(c, p);
    case HASH_STREAM2 => Stream2Sane(c, p);
    case XOF_WORD_OUT => NextXofSane(c, p);
    case SQUEEZE1 => FirstSane(c);
    case HASH_STREAM2P => FirstSane(c);
    case XOF_PERMUTE_WAIT => FirstSane(c);
    case _ => OnwardSane(c, Onward(c, p));
  }

  // An edge without release
  lemma CalmShape(c: Ctl, p: Pins)
    requires CtlOk(c) && Calm(p)
    ensures Tick(c, p) == Advance(c, p).(f := CoreTick(c.f, CommandOf(c, p)))
  {
    hide CommandOf, CoreTick, Advance, CoreOk;
  }

  // Without release or request, the registers are those of the case statement
  lemma TickFields(c: Ctl, p: Pins)
    requires CtlOk(c) && Calm(p)
    ensures var t, a := Tick(c, p), Advance(c, p);
      && t.state == a.state && t.cnt == a.cnt && t.fullBlock == a.fullBlock && t.mode == a.mode && t.done == a.done
      && t.xofIdx == a.xofIdx && t.xofData == a.xofData && t.xofValid == a.xofValid
      && t.outIdx == a.outIdx && t.outData == a.outData && t.outValid == a.outValid && t.outLast == a.outLast
  {
    hide CommandOf, CoreTick, Advance, Tick, CoreOk;
    CalmShape(c, p);
  }

  lemma CalmTick(c: Ctl, p: Pins)
    requires CtlOk(c) && Calm(p)
    ensures Tick(c, p).f == CoreTick(c.f, CommandOf(c, p)) && CtlOk(Tick(c, p))
  {
    hide CommandOf, CoreTick, Advance, CoreOk, Tick;
    CalmShape(c, p);
    AdvanceSane(c, p);
  }

  lemma CalmCommand(c: Ctl, p: Pins)
    requires CtlOk(c) && Calm(p)
    ensures var m := CommandOf(c, p);
      && !m.clear && !m.load && m.xor == AcceptWord(c, p) && (m.pad <==> c.state == PADDING && c.cnt / 8 < 17)
      && m.start == (c.state == PERMUTE_MORE_GO || c.state == PERMUTE_FIN_GO || c.state == XOF_PERMUTE_GO
        || c.state == HASH_STREAM2_GO)
      && m.xorData == Masked(p.inData, InBytes(p)) && m.xorLane == (if c.cnt / 8 < 17 then c.cnt / 8 else 0)
      && m.padData == Shifted(SuffixOf(c.mode), c.cnt % 8) && m.lastLane == RateOf(c.mode) / 8 - 1
        && m.padLane == m.xorLane
  {
    hide AcceptWord, Masked, Shifted;
  }

  lemma WordBounds(c: Ctl, p: Pins)
    requires AcceptWord(c, p) && PinsOk(p)
    ensures c.state == ABSORB_STREAM && 1 <= InBytes(p) <= 8 && c.cnt + InBytes(p) <= RateOf(c.mode) && c.cnt / 8 < 17
    ensures InBytes(p) == 8 || p.inLast
  {
  }

  // A word joins the message
  lemma {:induction false} FeedWord(mode: Mode, fed: seq<bv8>, data: Lane, n: nat)
    requires 1 <= n <= 8 && Absorbed(mode, fed).pos % 8 == 0 && Absorbed(mode, fed).pos + n <= RateOf(mode)
    ensures var a, b := Absorbed(mode, fed), Absorbed(mode, fed + WordBytes(data, n));
      var x := XorLane(a.s, a.pos / 8, Masked(data, n));
      && (a.pos + n < RateOf(mode) ==> b == Sponge(x, a.pos + n))
      && (a.pos + n == RateOf(mode) ==> b == Sponge(KeccakF(x), 0))
  {
    hide Absorb, XorBytes, XorLane, KeccakF, Masked, WordBytes;
    var a := Absorbed(mode, fed);
    AbsorbAppend(KeccakF, RateOf(mode), Sponge(Zeros(), 0), fed, WordBytes(data, n));
    AbsorbIsXor(KeccakF, RateOf(mode), a.s, a.pos, WordBytes(data, n));
    MaskedLane(a.s, a.pos / 8, data, n);
  }

  lemma XorCoreStep(f: Core, m: Command)
    requires CommandOk(m) && CoreOk(f) && f.st == CORE_IDLE && m.xor && !m.clear && !m.load
    ensures Idle(CoreTick(f, m), XorLane(f.lanes, m.xorLane, m.xorData))
  {
    hide XorLane;
  }

  lemma WordTick(c: Ctl, p: Pins)
    requires CtlOk(c) && Calm(p) && c.state == ABSORB_STREAM && AcceptWord(c, p)
    ensures var t, n := Tick(c, p), c.cnt + InBytes(p);
      && t.mode == c.mode && t.outValid == c.outValid && t.cnt == n
      && t.state == (if n == RateOf(c.mode) then ABSORB_BUF else if p.inLast then PADDING else ABSORB_STREAM)
  {
    hide CommandOf, CoreTick, NextWord, AcceptWord, Tick, Begin, AfterBlock, FirstOut, Stream1Out, SecondOut,
      Stream2Out, FirstXof, NextXof, Onward;
    CalmShape(c, p);
  }

  lemma StallTick(c: Ctl, p: Pins)
    requires CtlOk(c) && Calm(p) && c.state == ABSORB_STREAM && !AcceptWord(c, p)
    ensures var t := Tick(c, p);
      t.mode == c.mode && t.outValid == c.outValid && t.cnt == c.cnt && t.state == ABSORB_STREAM
  {
    hide CommandOf, CoreTick, NextWord, AcceptWord, Tick, Begin, AfterBlock, FirstOut, Stream1Out, SecondOut,
      Stream2Out, FirstXof, NextXof, Onward;
    CalmShape(c, p);
  }

  lemma StreamFacts(s: System)
    requires InputPhase(s) && s.c.state == ABSORB_STREAM
    ensures var a := Absorbed(s.c.mode, s.fed);
      !s.c.outValid && s.words == [] && Idle(s.c.f, a.s) && s.c.cnt == a.pos && a.pos % 8 == 0
  {
    hide Absorbed;
  }

  // The three states a word can lead to
  lemma StreamResult(t: System, x: Lanes)
    requires !t.c.outValid && t.words == [] && Idle(t.c.f, x)
    requires t.c.state == ABSORB_STREAM || t.c.state == PADDING || t.c.state == ABSORB_BUF
    requires Absorbed(t.c.mode, t.fed) == if t.c.state == ABSORB_BUF then Sponge(KeccakF(x), 0) else Sponge(x, t.c.cnt)
    requires t.c.state == ABSORB_STREAM ==> t.c.cnt % 8 == 0
    ensures InputPhase(t)
  {
    hide Absorbed, KeccakF;
  }

  lemma StreamAccept(s: System, p: Pins)
    requires CtlOk(s.c) && InputPhase(s) && s.c.state == ABSORB_STREAM && Calm(p) && AcceptWord(s.c, p)
    ensures InputPhase(Cycle(s, p))
  {
    hide Tick, CommandOf, CoreTick, Absorbed, KeccakF, XorLane, WordBytes, AcceptWord, Masked, Advance, InBytes,
      RateOf, InputPhase, Idle;
    var c, m := s.c, CommandOf(s.c, p);
    StreamFacts(s);
    CalmTick(c, p);
    CalmCommand(c, p);
    WordBounds(c, p);
    WordTick(c, p);
    IdleFacts(c.f, Absorbed(c.mode, s.fed).s);
    XorCoreStep(c.f, m);
    FeedWord(c.mode, s.fed, p.inData, InBytes(p));
    Aligned(c, p);
    StreamResult(Cycle(s, p), XorLane(c.f.lanes, m.xorLane, m.xorData));
  }

  lemma IdleFacts(f: Core, x: Lanes)
    requires Idle(f, x)
    ensures f.st == CORE_IDLE && f.lanes == x
  {
  }

  lemma StreamStall(s: System, p: Pins)
    requires CtlOk(s.c) && InputPhase(s) && s.c.state == ABSORB_STREAM && Calm(p) && !AcceptWord(s.c, p)
    ensures InputPhase(Cycle(s, p))
  {
    hide Tick, CommandOf, CoreTick, Absorbed, KeccakF, XorLane, WordBytes, AcceptWord, Masked, Finalized, Final,
      Advance, InBytes, RateOf, Waiting;
    var c, m := s.c, CommandOf(s.c, p);
    CalmTick(c, p);
    CalmCommand(c, p);
    StallTick(c, p);
    IdleStep(c.f, m);
  }

  lemma Aligned(c: Ctl, p: Pins)
    requires AcceptWord(c, p) && PinsOk(p)
    ensures !p.inLast ==> (c.cnt + InBytes(p)) % 8 == 0
  {
  }

  // The controller fields after an edge in the states that do not touch the counters
  lemma MoveTick(c: Ctl, p: Pins)
    requires CtlOk(c) && Calm(p)
    requires c.state == ABSORB_BUF || c.state == PERMUTE_MORE_GO || c.state == PADDING || c.state == ABSORB_FINAL
          || c.state == PERMUTE_FIN_GO || c.state == HASH_STREAM2_GO
    ensures var t := Tick(c, p);
      && t.mode == c.mode && t.outValid == c.outValid && t.cnt == c.cnt && t.outIdx == c.outIdx
      && t.state == (match c.state
                     case ABSORB_BUF => PERMUTE_MORE_GO
                     case PERMUTE_MORE_GO => PERMUTE_MORE_WAIT
                     case PADDING => ABSORB_FINAL
                     case ABSORB_FINAL => PERMUTE_FIN_GO
                     case PERMUTE_FIN_GO => PERMUTE_FIN_WAIT
                     case _ => HASH_STREAM2P)
  {
    hide Tick, Advance, CtlOk, Calm;
    TickFields(c, p);
    AdvanceAt(c, p);
  }

  lemma XorZeroBits(u: Lane)
    ensures Xor(u, 0) == u
  {
  }

  // Padding with lane enables is the finalize of the reference code
  lemma {:induction false} PaddedIsFinalize(m: Mode, s: Lanes, pos: nat)
    requires pos < RateOf(m)
    ensures Padded(s, pos / 8, Shifted(SuffixOf(m), pos % 8), RateOf(m) / 8 - 1) ==
        Finalize(RateOf(m), Sponge(s, pos), SuffixOf(m))
  {
    hide Xor, Shifted;
    var last := RateOf(m) / 8 - 1;
    XorZeroBits(s[last]);
    XorZeroBits(Xor(s[pos / 8], Shifted(SuffixOf(m), pos % 8)));
  }

  lemma PadStep(f: Core, m: Command)
    requires CommandOk(m) && CoreOk(f) && f.st == CORE_IDLE && m.pad && !m.clear && !m.load && !m.xor
    ensures Idle(CoreTick(f, m), Padded(f.lanes, m.padLane, m.padData, m.lastLane))
  {
    hide Padded;
  }

  lemma NoWord(c: Ctl, p: Pins)
    requires c.state != ABSORB_STREAM
    ensures !AcceptWord(c, p)
  {
  }

  lemma CoreParts(c: Ctl, p: Pins)
    requires CtlOk(c) && Calm(p)
    ensures CoreOk(c.f) && PinsOk(p) && CommandOk(CommandOf(c, p))
  {
    hide CommandOf;
  }

  // What the core is asked for when no word is taken and nothing is padded
  lemma CommandOff(c: Ctl, p: Pins)
    requires CtlOk(c) && Calm(p) && !AcceptWord(c, p) && c.state != PADDING
    ensures var m := CommandOf(c, p);
      && !m.clear && !m.load && !m.xor && !m.pad
      && m.start == (c.state == PERMUTE_MORE_GO || c.state == PERMUTE_FIN_GO || c.state == XOF_PERMUTE_GO
        || c.state == HASH_STREAM2_GO)
  {
    hide CommandOf, AcceptWord, Masked, Shifted, RateOf, CtlOk, Calm;
    CalmCommand(c, p);
  }

  lemma NoWords(s: System, p: Pins)
    requires CtlOk(s.c) && PinsOk(p) && s.c.state != ABSORB_STREAM
    ensures Cycle(s, p).fed == s.fed
    ensures !s.c.outValid ==> Cycle(s, p).words == s.words
  {
    hide Tick, AcceptWord;
    NoWord(s.c, p);
  }

  lemma BufferStep(s: System, p: Pins)
    requires CtlOk(s.c) && InputPhase(s) && s.c.state == ABSORB_BUF && Calm(p)
    ensures InputPhase(Cycle(s, p))
  {
    hide Tick, CommandOf, CoreTick, Absorbed, KeccakF, AcceptWord, Masked, Waiting, Shifted;
    CalmTick(s.c, p);
    CalmCommand(s.c, p);
    NoWord(s.c, p);
    NoWords(s, p);
    MoveTick(s.c, p);
    IdleStep(s.c.f, CommandOf(s.c, p));
  }

  lemma GoMoreStep(s: System, p: Pins)
    requires CtlOk(s.c) && InputPhase(s) && s.c.state == PERMUTE_MORE_GO && Calm(p)
    ensures InputPhase(Cycle(s, p))
  {
    hide Tick, CommandOf, CoreTick, Absorbed, KeccakF, AcceptWord, Masked, Waiting, Shifted;
    CalmTick(s.c, p);
    CalmCommand(s.c, p);
    NoWord(s.c, p);
    NoWords(s, p);
    MoveTick(s.c, p);
    GoStep(s.c.f, CommandOf(s.c, p));
  }

  // The fields after an edge of a waiting state
  lemma AfterBlockFields(c: Ctl)
    ensures var t := AfterBlock(c);
      && t.mode == c.mode && t.outValid == c.outValid && (!c.f.done ==> t.state == c.state)
      && (c.f.done ==> t.cnt == 0 && (t.state == PADDING || t.state == ABSORB_STREAM))
  {
    hide CoreOk;
    if c.f.done {
      if c.fullBlock {
      }
    }
  }

  lemma WaitOnward(c: Ctl, p: Pins)
    requires c.state == PERMUTE_FIN_WAIT
    ensures Onward(c, p) == if c.f.done then SQUEEZE1 else PERMUTE_FIN_WAIT
  {
  }

  lemma WaitTick(c: Ctl, p: Pins)
    requires CtlOk(c) && Calm(p) && (c.state == PERMUTE_MORE_WAIT || c.state == PERMUTE_FIN_WAIT)
    ensures var t := Tick(c, p);
      && t.mode == c.mode && t.outValid == c.outValid
      && (!c.f.done ==> t.state == c.state)
      && (c.f.done && c.state == PERMUTE_MORE_WAIT ==> t.cnt == 0 && (t.state == PADDING || t.state == ABSORB_STREAM))
      && (c.f.done && c.state == PERMUTE_FIN_WAIT ==> t.state == SQUEEZE1)
  {
    hide Tick, Advance, NextWord, CtlOk, Calm, AfterBlock, Onward;
    TickFields(c, p);
    AdvanceAt(c, p);
    if c.state == PERMUTE_MORE_WAIT {
      AfterBlockFields(c);
    } else {
      WaitOnward(c, p);
    }
  }

  lemma DoneIsIdle(f: Core, x: Lanes)
    requires Waiting(f, x) && f.done
    ensures Idle(f, x)
  {
    hide Rest;
  }

  lemma WaitMoreStep(s: System, p: Pins)
    requires CtlOk(s.c) && InputPhase(s) && s.c.state == PERMUTE_MORE_WAIT && Calm(p)
    ensures InputPhase(Cycle(s, p))
  {
    hide Tick, CommandOf, CoreTick, Absorbed, KeccakF, AcceptWord, Masked, Waiting, Shifted;
    var x := Absorbed(s.c.mode, s.fed).s;
    CalmTick(s.c, p);
    CalmCommand(s.c, p);
    NoWord(s.c, p);
    NoWords(s, p);
    WaitTick(s.c, p);
    if s.c.f.done {
      DoneIsIdle(s.c.f, x);
      IdleStep(s.c.f, CommandOf(s.c, p));
    } else {
      WaitStep(s.c.f, CommandOf(s.c, p), x);
    }
  }

  lemma PaddingStep(s: System, p: Pins)
    requires CtlOk(s.c) && InputPhase(s) && s.c.state == PADDING && Calm(p)
    ensures InputPhase(Cycle(s, p))
  {
    hide Tick, CommandOf, CoreTick, Absorbed, AcceptWord, Masked, Waiting, Shifted, Padded, Finalize;
    CalmTick(s.c, p);
    CalmCommand(s.c, p);
    NoWord(s.c, p);
    NoWords(s, p);
    MoveTick(s.c, p);
    PadStep(s.c.f, CommandOf(s.c, p));
    PaddedIsFinalize(s.c.mode, s.c.f.lanes, s.c.cnt);
  }

  lemma FinalSteps(s: System, p: Pins)
    requires CtlOk(s.c) && InputPhase(s) && (s.c.state == ABSORB_FINAL || s.c.state == PERMUTE_FIN_GO) && Calm(p)
    ensures InputPhase(Cycle(s, p))
  {
    hide Tick, CommandOf, CoreTick, Absorbed, KeccakF, AcceptWord, Masked, Waiting, Shifted, Finalized;
    CalmTick(s.c, p);
    CalmCommand(s.c, p);
    NoWord(s.c, p);
    NoWords(s, p);
    MoveTick(s.c, p);
    if s.c.state == ABSORB_FINAL {
      IdleStep(s.c.f, CommandOf(s.c, p));
    } else {
      GoStep(s.c.f, CommandOf(s.c, p));
    }
  }

  lemma WaitFinalStep(s: System, p: Pins)
    requires CtlOk(s.c) && InputPhase(s) && s.c.state == PERMUTE_FIN_WAIT && Calm(p)
    ensures InputPhase(Cycle(s, p))
  {
    hide Tick, CommandOf, CoreTick, Absorbed, KeccakF, AcceptWord, Masked, Waiting, Shifted, Final;
    var x := Final(s.c.mode, s.fed);
    CalmTick(s.c, p);
    CalmCommand(s.c, p);
    NoWord(s.c, p);
    NoWords(s, p);
    WaitTick(s.c, p);
    if s.c.f.done {
      DoneIsIdle(s.c.f, x);
      IdleStep(s.c.f, CommandOf(s.c, p));
    } else {
      WaitStep(s.c.f, CommandOf(s.c, p), x);
    }
  }

  // ----- Output -----

  lemma NextWordIs(c: Ctl)
    requires CtlOk(c)
    ensures c.state == HASH_STREAM1 && c.outIdx < 16 ==> NextWord(c) == c.f.lanes[c.outIdx + 1]
    ensures c.state == HASH_STREAM2 && 17 <= c.outIdx < 23 ==> NextWord(c) == c.f.lanes[c.outIdx - 16]
    ensures (c.state == SQUEEZE1 || c.state == HASH_STREAM2P || c.state == XOF_PERMUTE_WAIT) ==>
        NextWord(c) == c.f.lanes[0]
    ensures c.state == XOF_WORD_OUT && c.xofIdx < 20 ==> NextWord(c) == c.f.lanes[c.xofIdx + 1]
  {
  }

  lemma SqueezeFields(c: Ctl, p: Pins)
    requires CtlOk(c) && c.state == SQUEEZE1
    ensures var t := FirstOut(c);
      && t.mode == c.mode
      && (Streams(c.mode) ==> t.state == HASH_STREAM1 && t.outIdx == 0 && t.outValid && t.outData == NextWord(c))
      && (!Streams(c.mode) ==> t.state == IDLE && t.outValid == c.outValid)
  {
    hide Up, NextWord, AcceptWord, Begin, TakeWord, AfterBlock, Stream1Out, SecondOut, Stream2Out, FirstXof, NextXof,
      Onward, CoreOk;
    if c.mode == HASH_PRF2 {
    } else if c.mode == HASH_PRF3 {
    }
  }

  lemma SqueezeTick(c: Ctl, p: Pins)
    requires CtlOk(c) && Calm(p) && c.state == SQUEEZE1
    ensures var t := Tick(c, p);
      && t.mode == c.mode
      && (Streams(c.mode) ==> t.state == HASH_STREAM1 && t.outIdx == 0 && t.outValid && t.outData == NextWord(c))
      && (!Streams(c.mode) ==> t.state == IDLE && t.outValid == c.outValid)
  {
    hide Tick, Advance, NextWord, CtlOk, Calm, FirstOut;
    TickFields(c, p);
    AdvanceAt(c, p);
    SqueezeFields(c, p);
  }

  lemma SqueezeStep(s: System, p: Pins)
    requires CtlOk(s.c) && InputPhase(s) && s.c.state == SQUEEZE1 && Calm(p)
    ensures OutputPhase(Cycle(s, p))
  {
    hide Tick, CommandOf, CoreTick, Absorbed, KeccakF, AcceptWord, Masked, Waiting, Shifted, Final, NextWord;
    CalmTick(s.c, p);
    CalmCommand(s.c, p);
    NoWord(s.c, p);
    NoWords(s, p);
    SqueezeTick(s.c, p);
    NextWordIs(s.c);
    IdleStep(s.c.f, CommandOf(s.c, p));
  }

  // A word leaves, or the consumer stalls
  lemma Stream1Fields(c: Ctl, p: Pins)
    requires CtlOk(c) && c.state == HASH_STREAM1 && c.outValid && Streams(c.mode)
    requires c.outIdx <= (if c.mode == HASH_PRF2 then 15 else 16)
    ensures var t := Stream1Out(c, p);
      var last := c.outIdx == if c.mode == HASH_PRF2 then 15 else 16;
      && t.mode == c.mode
      && (!p.outReady ==> t.state == c.state && t.outIdx == c.outIdx && t.outValid && t.outData == c.outData)
      && (p.outReady && !last ==>
            t.state == c.state && t.outIdx == c.outIdx + 1 && t.outValid && t.outData == NextWord(c))
      && (p.outReady && last ==> !t.outValid && t.state == if c.mode == HASH_PRF2 then IDLE else HASH_STREAM2_GO)
  {
    hide Up, NextWord, AcceptWord, Begin, TakeWord, AfterBlock, FirstOut, SecondOut, Stream2Out, FirstXof, NextXof,
      Onward, CoreOk;
    if p.outReady {
      if c.mode == HASH_PRF2 {
        if c.outIdx == 15 {
        }
      } else if c.outIdx == 16 {
      }
    }
  }

  lemma Stream1Tick(c: Ctl, p: Pins)
    requires CtlOk(c) && Calm(p) && c.state == HASH_STREAM1 && c.outValid && Streams(c.mode)
    requires c.outIdx <= (if c.mode == HASH_PRF2 then 15 else 16)
    ensures var t := Tick(c, p);
      var last := c.outIdx == if c.mode == HASH_PRF2 then 15 else 16;
      && t.mode == c.mode
      && (!p.outReady ==> t.state == c.state && t.outIdx == c.outIdx && t.outValid && t.outData == c.outData)
      && (p.outReady && !last ==>
            t.state == c.state && t.outIdx == c.outIdx + 1 && t.outValid && t.outData == NextWord(c))
      && (p.outReady && last ==> !t.outValid && t.state == if c.mode == HASH_PRF2 then IDLE else HASH_STREAM2_GO)
  {
    hide Tick, Advance, NextWord, CtlOk, Calm, Stream1Out;
    TickFields(c, p);
    AdvanceAt(c, p);
    Stream1Fields(c, p);
  }

  lemma TakeOne(x: Lanes, k: nat)
    requires k < 25
    ensures x[..k] + [x[k]] == x[..k + 1]
  {
  }

  lemma Stream1Step(s: System, p: Pins)
    requires CtlOk(s.c) && OutputPhase(s) && s.c.state == HASH_STREAM1 && Calm(p)
    ensures OutputPhase(Cycle(s, p))
  {
    hide Tick, CommandOf, CoreTick, Absorbed, KeccakF, AcceptWord, Masked, Waiting, Shifted, Final, NextWord;
    CalmTick(s.c, p);
    NoWord(s.c, p);
    CommandOff(s.c, p);
    NoWords(s, p);
    Stream1Tick(s.c, p);
    NextWordIs(s.c);
    TakeOne(Final(s.c.mode, s.fed), s.c.outIdx);
    IdleStep(s.c.f, CommandOf(s.c, p));
    if !p.outReady {
    } else if s.c.mode == HASH_PRF2 {
    } else {
    }
  }

  lemma SecondGoStep(s: System, p: Pins)
    requires CtlOk(s.c) && OutputPhase(s) && s.c.state == HASH_STREAM2_GO && Calm(p)
    ensures OutputPhase(Cycle(s, p))
  {
    hide Tick, CommandOf, CoreTick, Absorbed, KeccakF, AcceptWord, Masked, Waiting, Shifted, Final, NextWord;
    CalmTick(s.c, p);
    CalmCommand(s.c, p);
    NoWord(s.c, p);
    NoWords(s, p);
    MoveTick(s.c, p);
    GoStep(s.c.f, CommandOf(s.c, p));
  }

  lemma SecondWaitFields(c: Ctl, p: Pins)
    requires CtlOk(c) && c.state == HASH_STREAM2P
    ensures var t := SecondOut(c);
      && t.mode == c.mode && (!c.f.done ==> t.state == c.state && t.outValid == c.outValid)
      && (c.f.done ==> t.state == HASH_STREAM2 && t.outIdx == 17 && t.outValid && t.outData == NextWord(c))
  {
    hide Up, NextWord, AcceptWord, Begin, TakeWord, AfterBlock, FirstOut, Stream1Out, Stream2Out, FirstXof, NextXof,
      Onward, CoreOk;
    if c.f.done {
    }
  }

  lemma SecondWaitTick(c: Ctl, p: Pins)
    requires CtlOk(c) && Calm(p) && c.state == HASH_STREAM2P
    ensures var t := Tick(c, p);
      && t.mode == c.mode && (!c.f.done ==> t.state == c.state && t.outValid == c.outValid)
      && (c.f.done ==> t.state == HASH_STREAM2 && t.outIdx == 17 && t.outValid && t.outData == NextWord(c))
  {
    hide Tick, Advance, NextWord, CtlOk, Calm, SecondOut;
    TickFields(c, p);
    AdvanceAt(c, p);
    SecondWaitFields(c, p);
  }

  lemma SecondWaitStep(s: System, p: Pins)
    requires CtlOk(s.c) && OutputPhase(s) && s.c.state == HASH_STREAM2P && Calm(p)
    ensures OutputPhase(Cycle(s, p))
  {
    hide Tick, CommandOf, CoreTick, Absorbed, KeccakF, AcceptWord, Masked, Waiting, Shifted, Final, NextWord;
    var x := KeccakF(Final(s.c.mode, s.fed));
    CalmTick(s.c, p);
    CalmCommand(s.c, p);
    NoWord(s.c, p);
    NoWords(s, p);
    SecondWaitTick(s.c, p);
    NextWordIs(s.c);
    if s.c.f.done {
      DoneIsIdle(s.c.f, x);
      IdleStep(s.c.f, CommandOf(s.c, p));
    } else {
      WaitStep(s.c.f, CommandOf(s.c, p), x);
    }
  }

  lemma Stream2Fields(c: Ctl, p: Pins)
    requires CtlOk(c) && c.state == HASH_STREAM2 && c.outValid && 17 <= c.outIdx <= 23
    ensures var t := Stream2Out(c, p);
      && t.mode == c.mode
      && (!p.outReady ==> t.state == c.state && t.outIdx == c.outIdx && t.outValid && t.outData == c.outData)
      && (p.outReady && c.outIdx < 23 ==>
            t.state == c.state && t.outIdx == c.outIdx + 1 && t.outValid && t.outData == NextWord(c))
      && (p.outReady && c.outIdx == 23 ==> !t.outValid && t.state == IDLE)
  {
    hide Up, NextWord, AcceptWord, Begin, TakeWord, AfterBlock, FirstOut, Stream1Out, SecondOut, FirstXof, NextXof,
      Onward, CoreOk;
    if p.outReady {
      if c.outIdx == 23 {
      }
    }
  }

  lemma Stream2Tick(c: Ctl, p: Pins)
    requires CtlOk(c) && Calm(p) && c.state == HASH_STREAM2 && c.outValid && 17 <= c.outIdx <= 23
    ensures var t := Tick(c, p);
      && t.mode == c.mode
      && (!p.outReady ==> t.state == c.state && t.outIdx == c.outIdx && t.outValid && t.outData == c.outData)
      && (p.outReady && c.outIdx < 23 ==>
            t.state == c.state && t.outIdx == c.outIdx + 1 && t.outValid && t.outData == NextWord(c))
      && (p.outReady && c.outIdx == 23 ==> !t.outValid && t.state == IDLE)
  {
    hide Tick, Advance, NextWord, CtlOk, Calm, Stream2Out;
    TickFields(c, p);
    AdvanceAt(c, p);
    Stream2Fields(c, p);
  }

  lemma Stream2Step(s: System, p: Pins)
    requires CtlOk(s.c) && OutputPhase(s) && s.c.state == HASH_STREAM2 && Calm(p)
    ensures OutputPhase(Cycle(s, p))
  {
    hide Tick, CommandOf, CoreTick, Absorbed, KeccakF, AcceptWord, Masked, Waiting, Shifted, Final, NextWord;
    CalmTick(s.c, p);
    NoWord(s.c, p);
    CommandOff(s.c, p);
    NoWords(s, p);
    Stream2Tick(s.c, p);
    IdleStep(s.c.f, CommandOf(s.c, p));
    if p.outReady {
      NextWordIs(s.c);
      TakeOne(KeccakF(Final(s.c.mode, s.fed)), s.c.outIdx - 17);
      if s.c.outIdx == 23 {
      }
    }
  }

  lemma RestTick(c: Ctl, p: Pins)
    requires CtlOk(c) && Calm(p) && c.state == IDLE
    ensures var t := Tick(c, p);
      t.mode == c.mode && t.state == IDLE && t.outValid == c.outValid
  {
    hide CommandOf, CoreTick, NextWord, AcceptWord, Tick, TakeWord, AfterBlock, FirstOut, Stream1Out, SecondOut,
      Stream2Out, FirstXof, NextXof, Onward;
    CalmShape(c, p);
  }

  lemma RestStep(s: System, p: Pins)
    requires CtlOk(s.c) && OutputPhase(s) && s.c.state == IDLE && Calm(p)
    ensures OutputPhase(Cycle(s, p))
  {
    hide Tick, CommandOf, CoreTick, Absorbed, KeccakF, AcceptWord, Masked, Waiting, Shifted, Final, NextWord;
    CalmTick(s.c, p);
    CalmCommand(s.c, p);
    NoWord(s.c, p);
    NoWords(s, p);
    RestTick(s.c, p);
    IdleStep(s.c.f, CommandOf(s.c, p));
  }

  lemma InputStep(s: System, p: Pins)
    requires CtlOk(s.c) && InputPhase(s) && Calm(p)
    ensures InputPhase(Cycle(s, p)) || OutputPhase(Cycle(s, p))
  {
    hide Cycle, OutputPhase, Absorbed, Finalized, Final, Waiting, KeccakF, AcceptWord;
    match s.c.state
    case ABSORB_STREAM =>
      if AcceptWord(s.c, p) {
        StreamAccept(s, p);
      } else {
        StreamStall(s, p);
      }
    case ABSORB_BUF => BufferStep(s, p);
    case PERMUTE_MORE_GO => GoMoreStep(s, p);
    case PERMUTE_MORE_WAIT => WaitMoreStep(s, p);
    case PADDING => PaddingStep(s, p);
    case ABSORB_FINAL => FinalSteps(s, p);
    case PERMUTE_FIN_GO => FinalSteps(s, p);
    case PERMUTE_FIN_WAIT => WaitFinalStep(s, p);
    case SQUEEZE1 => SqueezeStep(s, p);
    case _ => assert false;
  }

  lemma OutputStep(s: System, p: Pins)
    requires CtlOk(s.c) && OutputPhase(s) && Calm(p)
    ensures OutputPhase(Cycle(s, p))
  {
    hide Cycle, Final, Waiting, KeccakF;
    match s.c.state
    case HASH_STREAM1 => Stream1Step(s, p);
    case HASH_STREAM2_GO => SecondGoStep(s, p);
    case HASH_STREAM2P => SecondWaitStep(s, p);
    case HASH_STREAM2 => Stream2Step(s, p);
    case IDLE => RestStep(s, p);
    case _ => assert false;
  }

  lemma InvStep(s: System, p: Pins)
    requires Inv(s) && Calm(p)
    ensures Inv(Cycle(s, p))
  {
    hide InputPhase, OutputPhase, Tick;
    CalmTick(s.c, p);
    if InputPhase(s) {
      InputStep(s, p);
    } else {
      OutputStep(s, p);
    }
  }

  // ----- Whole runs -----

  function Run(s: System, ps: seq<Pins>): (t: System)
    requires CtlOk(s.c) && forall i :: 0 <= i < |ps| ==> Calm(ps[i])
    ensures CtlOk(t.c)
  {
    hide Cycle;
    if ps == [] then s
    else
      var q := Run(s, ps[..|ps| - 1]);
      CalmTick(q.c, ps[|ps| - 1]);
      CycleCtl(q, ps[|ps| - 1]);
      Cycle(q, ps[|ps| - 1])
  }

  lemma CycleCtl(s: System, p: Pins)
    requires CtlOk(s.c) && PinsOk(p)
    ensures Cycle(s, p).c == Tick(s.c, p)
  {
    hide Tick, AcceptWord;
  }

  lemma {:induction false} RunKeeps(s: System, ps: seq<Pins>)
    requires Inv(s) && forall i :: 0 <= i < |ps| ==> Calm(ps[i])
    ensures Inv(Run(s, ps))
  {
    hide InputPhase, OutputPhase, Cycle, Calm;
    if ps != [] {
      RunKeeps(s, ps[..|ps| - 1]);
      InvStep(Run(s, ps[..|ps| - 1]), ps[|ps| - 1]);
    }
  }

  // The edge that accepts start clears the lanes and opens the input stream
  lemma StartEdge(c: Ctl, p: Pins)
    requires CtlOk(c) && PinsOk(p) && c.state == IDLE && p.start && !p.release && !p.xofReq
    ensures var t := Tick(c, p);
      && Inv(System(t, [], [])) && t.mode == p.mode && t.state == ABSORB_STREAM
  {
    hide NextWord, AcceptWord, Masked, Shifted, KeccakF;
  }

  // ----- The hash of the reference code -----

  // Byte k of a word stream, low byte first
  function StreamByte(words: seq<Lane>, k: nat): bv8
    requires k < 8 * |words|
  {
    ByteOf(words[k / 8], k % 8)
  }

  lemma FirstBlock(mode: Mode, fed: seq<bv8>, n: nat)
    requires 0 < n <= RateOf(mode)
    ensures forall k :: 0 <= k < n ==>
      Hash(KeccakF, RateOf(mode), fed, SuffixOf(mode), n)[k] == ByteAt(Final(mode, fed), k)
  {
    hide KeccakF, Absorb, Finalize, ByteAt, Out, After;
    BlockOut(KeccakF, RateOf(mode), Sponge(Finalized(mode, fed), RateOf(mode)), n);
  }

  // The second block of PRF3 continues after all 136 bytes of the first
  lemma SecondBlock(fed: seq<bv8>)
    ensures var h := Hash(KeccakF, 136, fed, 0x1F, 192);
      && (forall k :: 0 <= k < 136 ==> h[k] == ByteAt(Final(HASH_PRF3, fed), k))
      && (forall k :: 136 <= k < 192 ==> h[k] == ByteAt(KeccakF(Final(HASH_PRF3, fed)), k - 136))
  {
    hide KeccakF, Absorb, Finalize, ByteAt, Out, After;
    var z := Sponge(Finalized(HASH_PRF3, fed), 136);
    SqueezeAdd(KeccakF, 136, z, 136, 56);
    BlockOut(KeccakF, 136, z, 136);
    BlockOut(KeccakF, 136, After(KeccakF, 136, z, 136), 56);
  }

  // The output length of each mode: dout for the first three, the word stream for the PRFs
  function OutBytes(m: Mode): nat {
    match m
    case HASH_H => 32
    case HASH_G => 64
    case HASH_RKPRF => 32
    case HASH_PRF2 => 128
    case HASH_PRF3 => 192
  }

  // When a hash is finished, dout or the words put out are the bytes of the reference hash of what
  // was fed, whatever the word boundaries and stalls were
  lemma {:induction false} FinishedIsHash(s: System, k: nat)
    requires Inv(s) && s.c.state == IDLE && k < OutBytes(s.c.mode)
    ensures var h := Hash(KeccakF, RateOf(s.c.mode), s.fed, SuffixOf(s.c.mode), OutBytes(s.c.mode));
      if Streams(s.c.mode) then 8 * |s.words| == OutBytes(s.c.mode) && StreamByte(s.words, k) == h[k]
      else s.words == [] && ByteAt(s.c.f.lanes, k) == h[k]
  {
    hide KeccakF, Final, ByteOf, Waiting, Hash;
    if s.c.mode == HASH_PRF3 {
      SecondBlock(s.fed);
    } else {
      FirstBlock(s.c.mode, s.fed, OutBytes(s.c.mode));
    }
  }

  lemma ModeKept(c: Ctl, p: Pins)
    requires CtlOk(c) && Calm(p)
    ensures Tick(c, p).mode == c.mode
  {
    hide CommandOf, CoreTick, Advance, Tick;
    CalmShape(c, p);
    AdvanceSane(c, p);
  }

  lemma {:induction false} RunMode(s: System, ps: seq<Pins>)
    requires CtlOk(s.c) && forall i :: 0 <= i < |ps| ==> Calm(ps[i])
    ensures Run(s, ps).c.mode == s.c.mode
  {
    hide Cycle, Tick;
    if ps != [] {
      RunMode(s, ps[..|ps| - 1]);
      ModeKept(Run(s, ps[..|ps| - 1]).c, ps[|ps| - 1]);
      CycleCtl(Run(s, ps[..|ps| - 1]), ps[|ps| - 1]);
    }
  }

  // From the start edge, every run that comes back to IDLE has produced the hash of the bytes fed
  lemma {:induction false} HashRun(c: Ctl, p: Pins, ps: seq<Pins>, k: nat)
    requires CtlOk(c) && PinsOk(p) && c.state == IDLE && p.start && !p.release && !p.xofReq
    requires CtlOk(Tick(c, p)) && forall i :: 0 <= i < |ps| ==> Calm(ps[i])
    requires Run(System(Tick(c, p), [], []), ps).c.state == IDLE && k < OutBytes(p.mode)
    ensures var t := Run(System(Tick(c, p), [], []), ps);
      var h := Hash(KeccakF, RateOf(p.mode), t.fed, SuffixOf(p.mode), OutBytes(p.mode));
      if Streams(p.mode) then 8 * |t.words| == OutBytes(p.mode) && StreamByte(t.words, k) == h[k]
      else ByteAt(t.c.f.lanes, k) == h[k]
  {
    hide KeccakF, Run, Tick, Hash, Inv, ByteOf;
    var s := System(Tick(c, p), [], []);
    StartEdge(c, p);
    RunKeeps(s, ps);
    RunMode(s, ps);
    FinishedIsHash(Run(s, ps), k);
  }

  // ----- The XOF stream -----

  function Power(x: Lanes, m: nat): Lanes {
    if m == 0 then x else KeccakF(Power(x, m - 1))
  }

  // Word k of the stream: 21 lanes of every block
  function XofWord(x: Lanes, k: nat): Lane {
    Power(x, k / 21 + 1)[k % 21]
  }

  function XofWords(x: Lanes, n: nat): (w: seq<Lane>)
    ensures |w| == n
  {
    seq(n, k requires 0 <= k < n => XofWord(x, k))
  }

  // x is the loaded state, b the number of blocks finished
  predicate XofPhase(c: Ctl, x: Lanes, b: nat, words: seq<Lane>) {
    && CtlOk(c)
    && match c.state
       case XOF_PERMUTE_GO => Idle(c.f, Power(x, b)) && !c.xofValid && words == XofWords(x, 21 * b)
       case XOF_PERMUTE_WAIT => Waiting(c.f, Power(x, b + 1)) && !c.xofValid && words == XofWords(x, 21 * b)
       case XOF_WORD_OUT =>
         && Idle(c.f, Power(x, b + 1)) && c.xofValid && c.xofIdx <= 20 && c.xofData == Power(x, b + 1)[c.xofIdx]
         && words == XofWords(x, 21 * b + c.xofIdx)
       case XOF_WAIT_NEXT => Idle(c.f, Power(x, b + 1)) && !c.xofValid && words == XofWords(x, 21 * b + 21)
       case _ => false
  }

  function WordsAfter(c: Ctl, p: Pins, words: seq<Lane>): seq<Lane> {
    if c.xofValid && p.xofReady then words + [c.xofData] else words
  }

  function BlocksAfter(c: Ctl, p: Pins, b: nat): nat {
    if c.state == XOF_WAIT_NEXT && p.xofReady then b + 1 else b
  }

  lemma XofWaitFields(c: Ctl, p: Pins)
    requires CtlOk(c) && c.state == XOF_PERMUTE_WAIT
    ensures var t := FirstXof(c);
      && (!c.f.done ==> t.state == XOF_PERMUTE_WAIT && t.xofValid == c.xofValid)
      && (c.f.done ==> t.state == XOF_WORD_OUT && t.xofValid && t.xofIdx == 0 && t.xofData == NextWord(c))
  {
    hide Up, NextWord, AcceptWord, Begin, TakeWord, AfterBlock, FirstOut, Stream1Out, SecondOut, Stream2Out, NextXof,
      Onward, CoreOk;
  }

  lemma XofWaitTick(c: Ctl, p: Pins)
    requires CtlOk(c) && Calm(p) && c.state == XOF_PERMUTE_WAIT
    ensures var t := Tick(c, p);
      && (!c.f.done ==> t.state == XOF_PERMUTE_WAIT && t.xofValid == c.xofValid)
      && (c.f.done ==> t.state == XOF_WORD_OUT && t.xofValid && t.xofIdx == 0 && t.xofData == NextWord(c))
  {
    hide Tick, Advance, NextWord, CtlOk, Calm, FirstXof;
    TickFields(c, p);
    AdvanceAt(c, p);
    XofWaitFields(c, p);
  }

  lemma XofOnward(c: Ctl, p: Pins)
    requires c.state == XOF_PERMUTE_GO || c.state == XOF_WAIT_NEXT
    ensures Onward(c, p)
         == if c.state == XOF_PERMUTE_GO then XOF_PERMUTE_WAIT else if p.xofReady then XOF_PERMUTE_GO else XOF_WAIT_NEXT
  {
  }

  lemma XofMoveTick(c: Ctl, p: Pins)
    requires CtlOk(c) && Calm(p) && (c.state == XOF_PERMUTE_GO || c.state == XOF_WAIT_NEXT)
    ensures var t := Tick(c, p);
      && t.xofValid == c.xofValid
      && t.state == (if c.state == XOF_PERMUTE_GO then XOF_PERMUTE_WAIT else if p.xofReady then XOF_PERMUTE_GO
        else XOF_WAIT_NEXT)
  {
    hide Tick, Advance, CtlOk, Calm, Onward;
    TickFields(c, p);
    AdvanceAt(c, p);
    XofOnward(c, p);
  }

  lemma XofOutFields(c: Ctl, p: Pins)
    requires CtlOk(c) && c.state == XOF_WORD_OUT && c.xofValid && c.xofIdx <= 20
    ensures var t := NextXof(c, p);
      && (!p.xofReady ==> t.state == c.state && t.xofValid && t.xofIdx == c.xofIdx && t.xofData == c.xofData)
      && (p.xofReady && c.xofIdx < 20 ==>
            t.state == c.state && t.xofValid && t.xofIdx == c.xofIdx + 1 && t.xofData == NextWord(c))
      && (p.xofReady && c.xofIdx == 20 ==> t.state == XOF_WAIT_NEXT && !t.xofValid)
  {
    hide Up, NextWord, AcceptWord, Begin, TakeWord, AfterBlock, FirstOut, Stream1Out, SecondOut, Stream2Out, FirstXof,
      Onward, CoreOk;
  }

  lemma XofOutTick(c: Ctl, p: Pins)
    requires CtlOk(c) && Calm(p) && c.state == XOF_WORD_OUT && c.xofValid && c.xofIdx <= 20
    ensures var t := Tick(c, p);
      && (!p.xofReady ==> t.state == c.state && t.xofValid && t.xofIdx == c.xofIdx && t.xofData == c.xofData)
      && (p.xofReady && c.xofIdx < 20 ==>
            t.state == c.state && t.xofValid && t.xofIdx == c.xofIdx + 1 && t.xofData == NextWord(c))
      && (p.xofReady && c.xofIdx == 20 ==> t.state == XOF_WAIT_NEXT && !t.xofValid)
  {
    hide Tick, Advance, NextWord, CtlOk, Calm, NextXof;
    TickFields(c, p);
    AdvanceAt(c, p);
    XofOutFields(c, p);
  }

  lemma NextXofWord(x: Lanes, b: nat, i: nat)
    requires i <= 20
    ensures XofWords(x, 21 * b + i) + [Power(x, b + 1)[i]] == XofWords(x, 21 * b + i + 1)
  {
    hide Power;
    assert (21 * b + i) / 21 == b && (21 * b + i) % 21 == i;
  }

  lemma PhaseCtl(c: Ctl, x: Lanes, b: nat, words: seq<Lane>)
    requires XofPhase(c, x, b, words)
    ensures CtlOk(c)
  {
    hide Waiting, XofWords, Power;
  }

  lemma PowerNext(x: Lanes, b: nat)
    ensures Power(x, b + 1) == KeccakF(Power(x, b))
  {
    hide KeccakF;
  }

  lemma XofOutPhase(c: Ctl, x: Lanes, b: nat, i: nat)
    requires CtlOk(c) && c.state == XOF_WORD_OUT && Idle(c.f, Power(x, b + 1)) && c.xofValid && c.xofIdx == i <= 20
    requires c.xofData == Power(x, b + 1)[i]
    ensures XofPhase(c, x, b, XofWords(x, 21 * b + i))
  {
    hide Power, XofWords, Waiting;
  }

  lemma XofEndPhase(c: Ctl, x: Lanes, b: nat)
    requires CtlOk(c) && c.state == XOF_WAIT_NEXT && Idle(c.f, Power(x, b + 1)) && !c.xofValid
    ensures XofPhase(c, x, b, XofWords(x, 21 * b + 20 + 1))
  {
    hide Power, XofWords, Waiting;
    assert 21 * b + 20 + 1 == 21 * b + 21;
  }

  lemma XofOutParts(c: Ctl, x: Lanes, b: nat, words: seq<Lane>)
    requires XofPhase(c, x, b, words) && c.state == XOF_WORD_OUT
    ensures CtlOk(c) && Idle(c.f, Power(x, b + 1)) && c.xofValid && c.xofIdx <= 20
    ensures c.xofData == Power(x, b + 1)[c.xofIdx] && words == XofWords(x, 21 * b + c.xofIdx)
  {
    hide Power, XofWords, Waiting, CoreOk;
  }

  lemma XofGoPhase(c: Ctl, x: Lanes, b: nat)
    requires CtlOk(c) && c.state == XOF_PERMUTE_GO && Idle(c.f, Power(x, b)) && !c.xofValid
    ensures XofPhase(c, x, b, XofWords(x, 21 * b))
  {
    hide Power, XofWords, Waiting;
  }

  lemma XofWaitPhase(c: Ctl, x: Lanes, b: nat)
    requires CtlOk(c) && c.state == XOF_PERMUTE_WAIT && Waiting(c.f, Power(x, b + 1)) && !c.xofValid
    ensures XofPhase(c, x, b, XofWords(x, 21 * b))
  {
    hide Power, XofWords, Waiting;
  }

  lemma XofWaitParts(c: Ctl, x: Lanes, b: nat, words: seq<Lane>)
    requires XofPhase(c, x, b, words) && c.state == XOF_PERMUTE_WAIT
    ensures CtlOk(c) && !c.xofValid && Waiting(c.f, Power(x, b + 1)) && words == XofWords(x, 21 * b)
  {
    hide Power, XofWords, Waiting, CoreOk;
  }

  lemma XofWaitStep(c: Ctl, p: Pins, x: Lanes, b: nat, words: seq<Lane>)
    requires XofPhase(c, x, b, words) && Calm(p) && c.state == XOF_PERMUTE_WAIT
    ensures XofPhase(Tick(c, p), x, BlocksAfter(c, p, b), WordsAfter(c, p, words))
  {
    hide Tick, CommandOf, CoreTick, KeccakF, AcceptWord, Waiting, NextWord, XofWords, Power, CtlOk, Calm, XofPhase;
    XofWaitParts(c, x, b, words);
    CoreParts(c, p);
    CalmTick(c, p);
    NoWord(c, p);
    CommandOff(c, p);
    XofWaitTick(c, p);
    if c.f.done {
      NextWordIs(c);
      DoneIsIdle(c.f, Power(x, b + 1));
      IdleStep(c.f, CommandOf(c, p));
      XofOutPhase(Tick(c, p), x, b, 0);
    } else {
      WaitStep(c.f, CommandOf(c, p), Power(x, b + 1));
      XofWaitPhase(Tick(c, p), x, b);
    }
  }

  lemma XofMoveParts(c: Ctl, x: Lanes, b: nat, words: seq<Lane>)
    requires XofPhase(c, x, b, words) && (c.state == XOF_PERMUTE_GO || c.state == XOF_WAIT_NEXT)
    ensures CtlOk(c) && !c.xofValid
    ensures c.state == XOF_PERMUTE_GO ==> Idle(c.f, Power(x, b)) && words == XofWords(x, 21 * b)
    ensures c.state == XOF_WAIT_NEXT ==> Idle(c.f, Power(x, b + 1)) && words == XofWords(x, 21 * b + 20 + 1)
  {
    hide Power, XofWords, Waiting, CoreOk;
    assert 21 * b + 20 + 1 == 21 * b + 21;
  }

  lemma XofMoveStep(c: Ctl, p: Pins, x: Lanes, b: nat, words: seq<Lane>)
    requires XofPhase(c, x, b, words) && Calm(p) && (c.state == XOF_PERMUTE_GO || c.state == XOF_WAIT_NEXT)
    ensures XofPhase(Tick(c, p), x, BlocksAfter(c, p, b), WordsAfter(c, p, words))
  {
    hide Tick, CommandOf, CoreTick, KeccakF, AcceptWord, Waiting, NextWord, XofWords, Power, CtlOk, Calm, XofPhase;
    XofMoveParts(c, x, b, words);
    CoreParts(c, p);
    CalmTick(c, p);
    NoWord(c, p);
    CommandOff(c, p);
    XofMoveTick(c, p);
    if c.state == XOF_PERMUTE_GO {
      PowerNext(x, b);
      GoStep(c.f, CommandOf(c, p));
      XofWaitPhase(Tick(c, p), x, b);
    } else {
      IdleStep(c.f, CommandOf(c, p));
      if p.xofReady {
        assert 21 * (b + 1) == 21 * b + 20 + 1;
        XofGoPhase(Tick(c, p), x, b + 1);
      } else {
        XofEndPhase(Tick(c, p), x, b);
      }
    }
  }

  lemma XofHoldStep(c: Ctl, p: Pins, x: Lanes, b: nat)
    requires XofPhase(c, x, b, XofWords(x, 21 * b + c.xofIdx)) && Calm(p) && c.state == XOF_WORD_OUT && !p.xofReady
    ensures XofPhase(Tick(c, p), x, b, XofWords(x, 21 * b + c.xofIdx))
  {
    hide Tick, CommandOf, CoreTick, AcceptWord, XofPhase, XofWords, Power, CtlOk, Calm;
    XofOutParts(c, x, b, XofWords(x, 21 * b + c.xofIdx));
    XofOutCore(c, p);
    XofOutTick(c, p);
    XofOutPhase(Tick(c, p), x, b, c.xofIdx);
  }

  lemma XofTakeStep(c: Ctl, p: Pins, x: Lanes, b: nat)
    requires XofPhase(c, x, b, XofWords(x, 21 * b + c.xofIdx)) && Calm(p) && c.state == XOF_WORD_OUT && p.xofReady
    ensures XofPhase(Tick(c, p), x, b, XofWords(x, 21 * b + c.xofIdx + 1))
  {
    hide Tick, CommandOf, CoreTick, AcceptWord, XofPhase, NextWord, XofWords, Power, CtlOk, Calm;
    XofOutParts(c, x, b, XofWords(x, 21 * b + c.xofIdx));
    XofOutCore(c, p);
    XofOutTick(c, p);
    if c.xofIdx == 20 {
      XofEndPhase(Tick(c, p), x, b);
    } else {
      NextWordIs(c);
      XofOutPhase(Tick(c, p), x, b, c.xofIdx + 1);
    }
  }

  // The core keeps its lanes while words leave
  lemma XofOutCore(c: Ctl, p: Pins)
    requires CtlOk(c) && Calm(p) && c.state == XOF_WORD_OUT && c.f.st == CORE_IDLE
    ensures PinsOk(p) && CtlOk(Tick(c, p)) && Idle(Tick(c, p).f, c.f.lanes)
  {
    hide Tick, CommandOf, CoreTick, AcceptWord, CtlOk, Calm;
    CoreParts(c, p);
    CalmTick(c, p);
    NoWord(c, p);
    CommandOff(c, p);
    IdleStep(c.f, CommandOf(c, p));
  }

  lemma XofWordStep(c: Ctl, p: Pins, x: Lanes, b: nat, words: seq<Lane>)
    requires XofPhase(c, x, b, words) && Calm(p) && c.state == XOF_WORD_OUT
    ensures XofPhase(Tick(c, p), x, BlocksAfter(c, p, b), WordsAfter(c, p, words))
  {
    hide Tick, XofPhase, XofWords, Power, CtlOk, Calm;
    XofOutParts(c, x, b, words);
    NextXofWord(x, b, c.xofIdx);
    if p.xofReady {
      XofTakeStep(c, p, x, b);
    } else {
      XofHoldStep(c, p, x, b);
    }
  }

  lemma XofStep(c: Ctl, p: Pins, x: Lanes, b: nat, words: seq<Lane>)
    requires XofPhase(c, x, b, words) && Calm(p)
    ensures XofPhase(Tick(c, p), x, BlocksAfter(c, p, b), WordsAfter(c, p, words))
  {
    hide Tick, Waiting, XofWords, Power;
    if c.state == XOF_PERMUTE_WAIT {
      XofWaitStep(c, p, x, b, words);
    } else if c.state == XOF_WORD_OUT {
      XofWordStep(c, p, x, b, words);
    } else {
      XofMoveStep(c, p, x, b, words);
    }
  }

  // The 34 bytes of a request: the seed, then the two index bytes
  function Request(seed: seq<Lane>, index: Lane): (m: seq<bv8>)
    requires |seed| == 4
    ensures |m| == 34
  {
    WordBytes(seed[0], 8) + WordBytes(seed[1], 8) + WordBytes(seed[2], 8) + WordBytes(seed[3], 8) + WordBytes(index, 2)
  }

  // Accepting a request starts the stream from the loaded state
  lemma XofAccept(c: Ctl, p: Pins)
    requires CtlOk(c) && PinsOk(p) && AcceptXof(c, p) && c.f.st == CORE_IDLE
    ensures XofPhase(Tick(c, p), Loaded(p.seed, p.index), 0, [])
  {
    hide NextWord, AcceptWord, Masked, Shifted, KeccakF, Loaded, Advance;
  }

  // The stream of a request, over any run
  datatype XofRun = XofRun(c: Ctl, blocks: nat, words: seq<Lane>)

  function RunXof(s: XofRun, ps: seq<Pins>): (t: XofRun)
    requires CtlOk(s.c) && forall i :: 0 <= i < |ps| ==> Calm(ps[i])
    ensures CtlOk(t.c)
  {
    hide Tick;
    if ps == [] then s
    else
      var q, p := RunXof(s, ps[..|ps| - 1]), ps[|ps| - 1];
      CalmTick(q.c, p);
      XofRun(Tick(q.c, p), BlocksAfter(q.c, p, q.blocks), WordsAfter(q.c, p, q.words))
  }

  lemma {:induction false} RunXofKeeps(s: XofRun, ps: seq<Pins>, x: Lanes)
    requires XofPhase(s.c, x, s.blocks, s.words) && forall i :: 0 <= i < |ps| ==> Calm(ps[i])
    ensures var t := RunXof(s, ps); XofPhase(t.c, x, t.blocks, t.words)
  {
    hide XofPhase, Calm, Tick, BlocksAfter, WordsAfter;
    PhaseCtl(s.c, x, s.blocks, s.words);
    if ps != [] {
      RunXofKeeps(s, ps[..|ps| - 1], x);
      var q := RunXof(s, ps[..|ps| - 1]);
      XofStep(q.c, ps[|ps| - 1], x, q.blocks, q.words);
    }
  }

  lemma PhaseWords(c: Ctl, x: Lanes, b: nat, words: seq<Lane>)
    requires XofPhase(c, x, b, words)
    ensures words == XofWords(x, |words|)
  {
    hide Waiting, Power, XofWord;
  }

  // ----- The stream is SHAKE128 of the request -----

  lemma MaskedFull(data: Lane)
    ensures Masked(data, 8) == data && Xor(0, Masked(data, 8)) == data
  {
  }

  lemma IndexLane(index: Lane)
    ensures Xor(Xor(0, Masked(index, 2)), Shifted(0x1F, 2)) == (index & 0xFFFF) | 0x1F_0000
  {
  }

  lemma TopLane()
    ensures Xor(0, 0x8000_0000_0000_0000) == TOP
  {
  }

  lemma LaneFed(s: Lanes, i: nat, data: Lane, msg: seq<bv8>)
    requires i < 20 && |msg| == 8 * i && s[i] == 0
    ensures XorBytes(Zeros(), 0, msg) == s ==> XorBytes(Zeros(), 0, msg + WordBytes(data, 8)) == s[i := data]
  {
    hide XorBytes, Xor, Masked, WordBytes;
    XorBytesAppend(Zeros(), 0, msg, WordBytes(data, 8));
    MaskedLane(s, i, data, 8);
    MaskedFull(data);
  }

  lemma {:induction false} SeedFed(seed: seq<Lane>, index: Lane)
    requires |seed| == 4
    ensures XorBytes(Zeros(), 0, Request(seed, index))
         == Zeros()[0 := seed[0]][1 := seed[1]][2 := seed[2]][3 := seed[3]][4 := Xor(0, Masked(index, 2))]
  {
    hide XorBytes, Xor, Masked, WordBytes;
    var z := Zeros();
    var m0, m1, m2, m3 := WordBytes(seed[0], 8), WordBytes(seed[1], 8), WordBytes(seed[2], 8), WordBytes(seed[3], 8);
    XorNone(z, 0);
    LaneFed(z, 0, seed[0], []);
    assert [] + m0 == m0;
    LaneFed(z[0 := seed[0]], 1, seed[1], m0);
    LaneFed(z[0 := seed[0]][1 := seed[1]], 2, seed[2], m0 + m1);
    LaneFed(z[0 := seed[0]][1 := seed[1]][2 := seed[2]], 3, seed[3], m0 + m1 + m2);
    var s := z[0 := seed[0]][1 := seed[1]][2 := seed[2]][3 := seed[3]];
    XorBytesAppend(z, 0, m0 + m1 + m2 + m3, WordBytes(index, 2));
    MaskedLane(s, 4, index, 2);
  }

  // Loading a request with its padding is absorbing and finalizing it
  lemma {:induction false} LoadedIsAbsorbed(seed: seq<Lane>, index: Lane)
    requires |seed| == 4
    ensures Loaded(seed, index) == Finalize(168, Absorb(KeccakF, 168, Sponge(Zeros(), 0), Request(seed, index)), 0x1F)
  {
    hide XorBytes, Xor, Masked, Absorb, KeccakF, Request, Shifted;
    AbsorbIsXor(KeccakF, 168, Zeros(), 0, Request(seed, index));
    SeedFed(seed, index);
    IndexLane(index);
    TopLane();
  }

  lemma {:induction false} AfterBlocks(x: Lanes, b: nat)
    ensures After(KeccakF, 168, Sponge(x, 168), 168 * b) == Sponge(Power(x, b), 168)
  {
    hide KeccakF, Refill;
    if b > 0 {
      AfterBlocks(x, b - 1);
      SqueezeAdd(KeccakF, 168, Sponge(x, 168), 168 * (b - 1), 168);
      BlockOut(KeccakF, 168, Sponge(Power(x, b - 1), 168), 168);
    }
  }

  lemma {:induction false} OutPrefix(x: Lanes, n: nat, m: nat)
    requires n <= m
    ensures Out(KeccakF, 168, Sponge(x, 168), n) == Out(KeccakF, 168, Sponge(x, 168), m)[..n]
  {
    hide KeccakF, Refill, After, Out;
    SqueezeAdd(KeccakF, 168, Sponge(x, 168), n, m - n);
  }

  // Byte k of the squeezed stream
  lemma {:induction false} StreamAt(x: Lanes, k: nat, m: nat)
    requires k < m
    ensures Out(KeccakF, 168, Sponge(x, 168), m)[k] == ByteAt(Power(x, k / 168 + 1), k % 168)
  {
    hide KeccakF, Refill, After, Out, ByteAt;
    var b, t := k / 168, k % 168;
    var z := Sponge(x, 168);
    OutPrefix(x, k + 1, m);
    AfterBlocks(x, b);
    SqueezeAdd(KeccakF, 168, z, 168 * b, t + 1);
    BlockOut(KeccakF, 168, Sponge(Power(x, b), 168), t + 1);
  }

  lemma WordByteIndex(k: nat)
    ensures k / 8 / 21 == k / 168 && k / 8 % 21 == k % 168 / 8 && k % 8 == k % 168 % 8
  {
  }

  // At any time, the words taken so far are the beginning of SHAKE128(seed || x || y)
  lemma {:induction false} XofIsShake(c: Ctl, p: Pins, ps: seq<Pins>, k: nat)
    requires CtlOk(c) && PinsOk(p) && AcceptXof(c, p) && c.f.st == CORE_IDLE
    requires CtlOk(Tick(c, p)) && forall i :: 0 <= i < |ps| ==> Calm(ps[i])
    requires k < 8 * |RunXof(XofRun(Tick(c, p), 0, []), ps).words|
    ensures var words := RunXof(XofRun(Tick(c, p), 0, []), ps).words;
      StreamByte(words, k) == Hash(KeccakF, 168, Request(p.seed, p.index), 0x1F, 8 * |words|)[k]
  {
    hide KeccakF, Tick, RunXof, Out, Absorb, Finalize, Loaded, Request, Power, ByteOf, XofPhase;
    var x := Loaded(p.seed, p.index);
    XofAccept(c, p);
    RunXofKeeps(XofRun(Tick(c, p), 0, []), ps, x);
    var t := RunXof(XofRun(Tick(c, p), 0, []), ps);
    PhaseWords(t.c, x, t.blocks, t.words);
    LoadedIsAbsorbed(p.seed, p.index);
    StreamAt(x, k, 8 * |t.words|);
    WordByteIndex(k);
  }
}
