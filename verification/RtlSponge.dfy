/** The hardware sponge: rtl/kyber/keccak_f1600_core.v, which owns the lanes and runs one round per
    clock edge, and the controller rtl/kyber/keccak_sponge_core.v around it. */
module RtlSponge {
  import opened Sponge
  import opened KeccakPerm

  // ----- keccak_f1600_core -----

  datatype CoreState = CORE_IDLE | PROCESS | FINISH

  datatype Core = Core(st: CoreState, round: nat, done: bool, lanes: Lanes)

  // What the controller asks of the core at an edge. xorMask and padMask are one-hot, so a lane
  // number stands for them
  datatype Command = Command(start: bool, clear: bool, load: bool, seed: seq<Lane>, index: Lane,
                             xor: bool, xorLane: nat, xorData: Lane, pad: bool, padLane: nat, padData: Lane,
                             lastLane: nat)

  const TOP: Lane := 0x8000_0000_0000_0000

  // xof_load_data: four lanes, then two index bytes with the suffix above them
  function Loaded(seed: seq<Lane>, index: Lane): Lanes
    requires |seed| == 4
  {
    Zeros()[0 := seed[0]][1 := seed[1]][2 := seed[2]][3 := seed[3]][4 := (index & 0xFFFF) | 0x1F_0000][20 := TOP]
  }

  // Each enabled lane takes one exclusive or of both pads
  function Padded(s: Lanes, lane: nat, data: Lane, last: nat): Lanes
    requires lane < 25 && last < 25
  {
    if lane == last then s[lane := Xor(Xor(s[lane], data), TOP)]
    else s[lane := Xor(Xor(s[lane], data), 0)][last := Xor(Xor(s[last], 0), TOP)]
  }

  predicate CommandOk(c: Command) {
    |c.seed| == 4 && c.xorLane < 17 && c.padLane < 17 && c.lastLane < 17
  }

  predicate CoreOk(f: Core) {
    f.round < 24
  }

  // The case over round_cnt that drives rc
  function RcRom(i: nat): Lane
    requires i < 24
  {
    match i
    case 0 => 0x0000_0000_0000_0001
    case 1 => 0x0000_0000_0000_8082
    case 2 => 0x8000_0000_0000_808A
    case 3 => 0x8000_0000_8000_8000
    case 4 => 0x0000_0000_0000_808B
    case 5 => 0x0000_0000_8000_0001
    case 6 => 0x8000_0000_8000_8081
    case 7 => 0x8000_0000_0000_8009
    case 8 => 0x0000_0000_0000_008A
    case 9 => 0x0000_0000_0000_0088
    case 10 => 0x0000_0000_8000_8009
    case 11 => 0x0000_0000_8000_000A
    case 12 => 0x0000_0000_8000_808B
    case 13 => 0x8000_0000_0000_008B
    case 14 => 0x8000_0000_0000_8089
    case 15 => 0x8000_0000_0000_8003
    case 16 => 0x8000_0000_0000_8002
    case 17 => 0x8000_0000_0000_0080
    case 18 => 0x0000_0000_0000_800A
    case 19 => 0x8000_0000_8000_000A
    case 20 => 0x8000_0000_8000_8081
    case 21 => 0x8000_0000_0000_8080
    case 22 => 0x0000_0000_8000_0001
    case _ => 0x8000_0000_8000_8008
  }

  lemma RomIsRoundConstant(i: nat)
    requires i < 24
    ensures RcRom(i) == RoundConstant(i)
  {
  }

  function CoreTick(f: Core, c: Command): (g: Core)
    requires CommandOk(c) && CoreOk(f)
    ensures CoreOk(g)
  {
    if c.clear then Core(CORE_IDLE, 0, false, Zeros())
    else match f.st
    case CORE_IDLE =>
      var g := f.(done := false, round := 0);
      if c.load then g.(lanes := Loaded(c.seed, c.index))
      else if c.xor then g.(lanes := XorLane(f.lanes, c.xorLane, c.xorData))
      else if c.pad then g.(lanes := Padded(f.lanes, c.padLane, c.padData, c.lastLane))
      else if c.start then g.(st := PROCESS)
      else g
    case PROCESS =>
      var g := f.(done := false, lanes := Round(f.lanes, RcRom(f.round)));
      if f.round == 23 then g.(st := FINISH) else g.(round := f.round + 1)
    case FINISH => f.(done := true, st := CORE_IDLE)
  }

  // ----- keccak_sponge_core -----

  datatype State = IDLE | ABSORB_STREAM | ABSORB_BUF | PERMUTE_MORE_GO | PERMUTE_MORE_WAIT | PADDING | ABSORB_FINAL
                 | PERMUTE_FIN_GO | PERMUTE_FIN_WAIT | SQUEEZE1 | HASH_STREAM1 | HASH_STREAM2_GO | HASH_STREAM2P
                 | HASH_STREAM2 | XOF_PERMUTE_GO | XOF_PERMUTE_WAIT | XOF_WORD_OUT | XOF_WAIT_NEXT

  datatype Mode = HASH_H | HASH_G | HASH_PRF2 | HASH_PRF3 | HASH_RKPRF

  datatype Ctl = Ctl(state: State, cnt: nat, fullBlock: bool, mode: Mode, done: bool,
                     xofIdx: nat, xofData: Lane, xofValid: bool, outIdx: nat, outData: Lane, outValid: bool,
                       outLast: bool,
                     f: Core)

  datatype Pins = Pins(start: bool, mode: Mode, inValid: bool, inData: Lane, inBytes: nat, inLast: bool,
                       xofReq: bool, seed: seq<Lane>, index: Lane, release: bool, xofReady: bool, outReady: bool)

  predicate PinsOk(p: Pins) {
    p.inBytes < 16 && |p.seed| == 4
  }

  function RateOf(m: Mode): (r: nat)
    ensures RateOk(r) && r <= 136
  {
    if m == HASH_G then 72 else 136
  }

  function SuffixOf(m: Mode): bv8 {
    if m == HASH_H || m == HASH_G then 0x06 else 0x1F
  }

  function InBytes(p: Pins): nat {
    if p.inBytes == 0 then 8 else p.inBytes
  }

  predicate InFits(c: Ctl, p: Pins) {
    InBytes(p) <= 8 && c.cnt + InBytes(p) <= RateOf(c.mode)
  }

  predicate InReady(c: Ctl, p: Pins) {
    && c.state == ABSORB_STREAM && c.cnt % 8 == 0 && c.cnt < RateOf(c.mode)
    && (!p.inValid || (InFits(c, p) && (InBytes(p) == 8 || p.inLast)))
  }

  predicate XofReqReady(c: Ctl) {
    c.state == IDLE || c.state == XOF_WORD_OUT || c.state == XOF_WAIT_NEXT
  }

  predicate AcceptWord(c: Ctl, p: Pins) {
    p.inValid && InReady(c, p)
  }

  predicate AcceptXof(c: Ctl, p: Pins) {
    !p.release && p.xofReq && XofReqReady(c)
  }

  predicate AcceptStart(c: Ctl, p: Pins) {
    !p.release && !AcceptXof(c, p) && c.state == IDLE && p.start
  }

  // in_byte_mask
  function ByteMask(n: nat): Lane {
    match n
    case 1 => 0xFF
    case 2 => 0xFFFF
    case 3 => 0xFF_FFFF
    case 4 => 0xFFFF_FFFF
    case 5 => 0xFF_FFFF_FFFF
    case 6 => 0xFFFF_FFFF_FFFF
    case 7 => 0xFF_FFFF_FFFF_FFFF
    case _ => 0xFFFF_FFFF_FFFF_FFFF
  }

  // in_masked_data
  function Masked(data: Lane, n: nat): Lane {
    data & ByteMask(n)
  }

  predicate CtlOk(c: Ctl) {
    c.cnt <= 136 && c.outIdx < 32 && c.xofIdx < 32 && CoreOk(c.f)
  }

  function CommandOf(c: Ctl, p: Pins): (m: Command)
    requires CtlOk(c) && PinsOk(p)
    ensures CommandOk(m)
  {
    var go := c.state == PERMUTE_MORE_GO || c.state == PERMUTE_FIN_GO || c.state == XOF_PERMUTE_GO
      || c.state == HASH_STREAM2_GO;
    var quiet := !p.release && !AcceptXof(c, p);
    var lane := if c.cnt / 8 < 17 then c.cnt / 8 else 0;
    Command(quiet && go, p.release || AcceptStart(c, p), AcceptXof(c, p), p.seed, p.index,
            quiet && AcceptWord(c, p), lane, Masked(p.inData, InBytes(p)),
            quiet && c.state == PADDING && c.cnt / 8 < 17, lane, Shifted(SuffixOf(c.mode), c.cnt % 8),
              RateOf(c.mode) / 8 - 1)
  }

  // A five-bit counter
  function Up(i: nat): (r: nat)
    ensures r < 32 && (i < 31 ==> r == i + 1)
  {
    (i + 1) % 32
  }

  // f_state_word: the lane the output registers would take next
  function NextWord(c: Ctl): Lane {
    var i := match c.state
             case HASH_STREAM1 => Up(c.outIdx)
             case HASH_STREAM2 => (c.outIdx + 16) % 32
             case XOF_WORD_OUT => Up(c.xofIdx)
             case _ => 0;
    c.f.lanes[if i < 16 then i else 16 + (if i % 8 < 4 then i % 8 else 4)]
  }

  // The case statement, state by state, for an edge without release and without an accepted XOF
  // request
  function Begin(c: Ctl, p: Pins): Ctl {
    if p.start then
      c.(done := false, cnt := 0, fullBlock := false, mode := p.mode, outValid := false, outLast := false, outIdx := 0,
         state := ABSORB_STREAM)
    else c.(done := false)
  }

  function TakeWord(c: Ctl, p: Pins): Ctl {
    if !AcceptWord(c, p) then c.(done := false)
    else
      var n := c.cnt + InBytes(p);
      var full := n == RateOf(c.mode);
      c.(done := false, cnt := n, fullBlock := c.fullBlock || (full && p.inLast),
         state := if full then ABSORB_BUF else if p.inLast then PADDING else ABSORB_STREAM)
  }

  function AfterBlock(c: Ctl): Ctl {
    if !c.f.done then c.(done := false)
    else if c.fullBlock then c.(done := false, cnt := 0, fullBlock := false, state := PADDING)
    else c.(done := false, cnt := 0, state := ABSORB_STREAM)
  }

  function FirstOut(c: Ctl): Ctl {
    if c.mode == HASH_PRF2 || c.mode == HASH_PRF3 then
      c.(done := false, outIdx := 0, outData := NextWord(c), outValid := true, outLast := false, state := HASH_STREAM1)
    else c.(done := true, state := IDLE)
  }

  function Stream1Out(c: Ctl, p: Pins): Ctl {
    var d := c.(done := false);
    if !(c.outValid && p.outReady) then d
    else if c.mode == HASH_PRF2 && c.outIdx == 15 then
      d.(outValid := false, outLast := false, done := true, state := IDLE)
    else if c.mode == HASH_PRF2 then
      d.(outIdx := Up(c.outIdx), outData := NextWord(c), outLast := c.outIdx == 14)
    else if c.outIdx == 16 then d.(outValid := false, outLast := false, state := HASH_STREAM2_GO)
    else d.(outIdx := Up(c.outIdx), outData := NextWord(c), outLast := false)
  }

  function SecondOut(c: Ctl): Ctl {
    if c.f.done then
      c.(done := false, outIdx := 17, outData := NextWord(c), outValid := true, outLast := false, state := HASH_STREAM2)
    else c.(done := false)
  }

  function Stream2Out(c: Ctl, p: Pins): Ctl {
    if !(c.outValid && p.outReady) then c.(done := false)
    else if c.outIdx == 23 then c.(outValid := false, outLast := false, done := true, state := IDLE)
    else c.(done := false, outIdx := Up(c.outIdx), outData := NextWord(c), outLast := c.outIdx == 22)
  }

  function FirstXof(c: Ctl): Ctl {
    if c.f.done then c.(done := false, xofIdx := 0, xofData := NextWord(c), xofValid := true, state := XOF_WORD_OUT)
    else c.(done := false)
  }

  function NextXof(c: Ctl, p: Pins): Ctl {
    if !(c.xofValid && p.xofReady) then c.(done := false)
    else if c.xofIdx == 20 then c.(done := false, xofValid := false, xofIdx := 0, state := XOF_WAIT_NEXT)
    else c.(done := false, xofIdx := Up(c.xofIdx), xofData := NextWord(c), xofValid := true)
  }

  // The states that only move on
  function Onward(c: Ctl, p: Pins): State {
    match c.state
    case ABSORB_BUF => PERMUTE_MORE_GO
    case PERMUTE_MORE_GO => PERMUTE_MORE_WAIT
    case PADDING => ABSORB_FINAL
    case ABSORB_FINAL => PERMUTE_FIN_GO
    case PERMUTE_FIN_GO => PERMUTE_FIN_WAIT
    case PERMUTE_FIN_WAIT => if c.f.done then SQUEEZE1 else PERMUTE_FIN_WAIT
    case HASH_STREAM2_GO => HASH_STREAM2P
    case XOF_PERMUTE_GO => XOF_PERMUTE_WAIT
    case XOF_WAIT_NEXT => if p.xofReady then XOF_PERMUTE_GO else XOF_WAIT_NEXT
    case _ => c.state
  }

  function Advance(c: Ctl, p: Pins): Ctl
    requires CtlOk(c)
  {
    match c.state
    case IDLE => Begin(c, p)
    case ABSORB_STREAM => TakeWord(c, p)
    case PERMUTE_MORE_WAIT => AfterBlock(c)
    case SQUEEZE1 => FirstOut(c)
    case HASH_STREAM1 => Stream1Out(c, p)
    case HASH_STREAM2P => SecondOut(c)
    case HASH_STREAM2 => Stream2Out(c, p)
    case XOF_PERMUTE_WAIT => FirstXof(c)
    case XOF_WORD_OUT => NextXof(c, p)
    case _ => c.(done := false, state := Onward(c, p))
  }

  lemma OnwardIgnoresDone(c: Ctl, p: Pins)
    ensures Onward(c.(done := false), p) == Onward(c, p)
  {
  }

  // The case statement, one state at a time
  lemma AdvanceAt(c: Ctl, p: Pins)
    requires CtlOk(c)
    ensures c.state == IDLE ==> Advance(c, p) == Begin(c, p)
    ensures c.state == ABSORB_STREAM ==> Advance(c, p) == TakeWord(c, p)
    ensures c.state == PERMUTE_MORE_WAIT ==> Advance(c, p) == AfterBlock(c)
    ensures c.state == SQUEEZE1 ==> Advance(c, p) == FirstOut(c)
    ensures c.state == HASH_STREAM1 ==> Advance(c, p) == Stream1Out(c, p)
    ensures c.state == HASH_STREAM2P ==> Advance(c, p) == SecondOut(c)
    ensures c.state == HASH_STREAM2 ==> Advance(c, p) == Stream2Out(c, p)
    ensures c.state == XOF_PERMUTE_WAIT ==> Advance(c, p) == FirstXof(c)
    ensures c.state == XOF_WORD_OUT ==> Advance(c, p) == NextXof(c, p)
    ensures c.state in {ABSORB_BUF, PERMUTE_MORE_GO, PADDING, ABSORB_FINAL, PERMUTE_FIN_GO, PERMUTE_FIN_WAIT,
                        HASH_STREAM2_GO, XOF_PERMUTE_GO, XOF_WAIT_NEXT}
        ==> Advance(c, p) == c.(done := false, state := Onward(c, p))
  {
    hide CtlOk, Begin, TakeWord, AfterBlock, FirstOut, Stream1Out, SecondOut, Stream2Out, FirstXof, NextXof, Onward;
  }

  function Tick(c: Ctl, p: Pins): Ctl
    requires CtlOk(c) && PinsOk(p)
  {
    var f := CoreTick(c.f, CommandOf(c, p));
    var clear := c.(done := false, xofValid := false, xofIdx := 0, outValid := false, outLast := false, cnt := 0,
                    fullBlock := false, f := f);
    if p.release then clear.(state := IDLE)
    else if AcceptXof(c, p) then clear.(state := XOF_PERMUTE_GO)
    else Advance(c, p).(f := f)
  }

  // ----- The clocked blocks -----

  const CORE_RESET: Core := Core(CORE_IDLE, 0, false, Zeros())

  class KeccakCore {
    var st: CoreState
    var round: nat
    var done: bool
    var lanes: Lanes

    function State(): Core
      reads this
    {
      Core(st, round, done, lanes)
    }

    method Clock(rst: bool, c: Command)
      requires CommandOk(c) && CoreOk(State())
      modifies this
      ensures State() == if rst then CORE_RESET else CoreTick(old(State()), c)
    {
      hide Loaded, XorLane, Padded, Round, RcRom, Zeros;
      if rst || c.clear {
        st, round, done, lanes := CORE_IDLE, 0, false, Zeros();
        return;
      }
      match st {
        case CORE_IDLE =>
          done, round := false, 0;
          if c.load {
            lanes := Loaded(c.seed, c.index);
          } else if c.xor {
            lanes := XorLane(lanes, c.xorLane, c.xorData);
          } else if c.pad {
            lanes := Padded(lanes, c.padLane, c.padData, c.lastLane);
          } else if c.start {
            st := PROCESS;
          }
        case PROCESS =>
          done := false;
          lanes := Round(lanes, RcRom(round));
          if round == 23 {
            st := FINISH;
          } else {
            round := round + 1;
          }
        case FINISH =>
          done, st := true, CORE_IDLE;
      }
    }
  }

  const RESET: Ctl := Ctl(IDLE, 0, false, HASH_H, false, 0, 0, false, 0, 0, false, false, CORE_RESET)

  datatype XofOut = XofOut(idx: nat, data: Lane, valid: bool)

  datatype HashOut = HashOut(idx: nat, data: Lane, valid: bool, last: bool)

  class SpongeCore {
    const f: KeccakCore
    var state: State
    var rateByteCnt: nat
    var fullBlock: bool
    var mode: Mode
    var done: bool
    var xof: XofOut
    var hash: HashOut

    constructor ()
      ensures fresh(f)
    {
      f := new KeccakCore;
    }

    function State(): Ctl
      reads this, f
    {
      Ctl(state, rateByteCnt, fullBlock, mode, done, xof.idx, xof.data, xof.valid, hash.idx, hash.data, hash.valid,
        hash.last,
          f.State())
    }

    // A new message, or the block's permutation is over
    method ClockIdle(c: Ctl, p: Pins)
      requires CtlOk(c) && PinsOk(p) && c.(done := false) == State()
      requires c.state == IDLE || c.state == PERMUTE_MORE_WAIT
      modifies this
      ensures State() == Advance(c, p)
    {
      hide InBytes, RateOf, AcceptWord, NextWord, CoreOk, Up, Advance;
      AdvanceAt(c, p);
      if c.state == IDLE {
        if p.start {
          rateByteCnt, fullBlock, mode, state := 0, false, p.mode, ABSORB_STREAM;
          hash := HashOut(0, hash.data, false, false);
        }
      } else if c.f.done {
        rateByteCnt := 0;
        state := if fullBlock then PADDING else ABSORB_STREAM;
        fullBlock := false;
      }
    }

    // A message word
    method ClockAbsorb(c: Ctl, p: Pins)
      requires CtlOk(c) && PinsOk(p) && c.(done := false) == State() && c.state == ABSORB_STREAM
      modifies `rateByteCnt, `state, `fullBlock
      ensures State() == Advance(c, p)
    {
      hide InBytes, RateOf, AcceptWord, NextWord, CoreOk, Up, Advance;
      AdvanceAt(c, p);
      if AcceptWord(c, p) {
        rateByteCnt := rateByteCnt + InBytes(p);
        if rateByteCnt == RateOf(mode) {
          state, fullBlock := ABSORB_BUF, fullBlock || p.inLast;
        } else if p.inLast {
          state := PADDING;
        }
      }
    }

    // The steps that only move on
    method NextState(p: Pins, permuted: bool) returns (next: State)
      requires State().f.done == permuted
      ensures next == Onward(State(), p)
    {
      next := state;
      match state {
        case ABSORB_BUF => next := PERMUTE_MORE_GO;
        case PERMUTE_MORE_GO => next := PERMUTE_MORE_WAIT;
        case PADDING => next := ABSORB_FINAL;
        case ABSORB_FINAL => next := PERMUTE_FIN_GO;
        case PERMUTE_FIN_GO => next := PERMUTE_FIN_WAIT;
        case PERMUTE_FIN_WAIT =>
          if permuted {
            next := SQUEEZE1;
          }
        case HASH_STREAM2_GO => next := HASH_STREAM2P;
        case XOF_PERMUTE_GO => next := XOF_PERMUTE_WAIT;
        case XOF_WAIT_NEXT =>
          if p.xofReady {
            next := XOF_PERMUTE_GO;
          }
        case _ =>
      }
    }

    method ClockPermute(c: Ctl, p: Pins)
      requires CtlOk(c) && PinsOk(p) && c.(done := false) == State()
      requires c.state in {ABSORB_BUF, PERMUTE_MORE_GO, PADDING, ABSORB_FINAL, PERMUTE_FIN_GO, PERMUTE_FIN_WAIT,
                           HASH_STREAM2_GO, XOF_PERMUTE_GO, XOF_WAIT_NEXT}
      modifies `state
      ensures State() == Advance(c, p)
    {
      hide CoreOk, Advance, Onward;
      AdvanceAt(c, p);
      OnwardIgnoresDone(c, p);
      state := NextState(p, c.f.done);
    }

    // The first hash words out
    method ClockSqueeze(c: Ctl, p: Pins)
      requires CtlOk(c) && PinsOk(p) && c.(done := false) == State() && c.state == SQUEEZE1
      modifies `hash, `done, `state
      ensures State() == Advance(c, p)
    {
      hide InBytes, RateOf, AcceptWord, NextWord, CoreOk, Up, Advance;
      AdvanceAt(c, p);
      if mode == HASH_PRF2 || mode == HASH_PRF3 {
        hash, state := HashOut(0, NextWord(c), true, false), HASH_STREAM1;
      } else {
        done, state := true, IDLE;
      }
    }

    // The second permutation of PRF3 is over
    method ClockSecond(c: Ctl, p: Pins)
      requires CtlOk(c) && PinsOk(p) && c.(done := false) == State() && c.state == HASH_STREAM2P
      modifies `hash, `state
      ensures State() == Advance(c, p)
    {
      hide InBytes, RateOf, AcceptWord, NextWord, CoreOk, Up, Advance;
      AdvanceAt(c, p);
      if c.f.done {
        hash, state := HashOut(17, NextWord(c), true, false), HASH_STREAM2;
      }
    }

    // The rest of PRF3
    method ClockStream2(c: Ctl, p: Pins)
      requires CtlOk(c) && PinsOk(p) && c.(done := false) == State() && c.state == HASH_STREAM2
      modifies `hash, `done, `state
      ensures State() == Advance(c, p)
    {
      hide InBytes, RateOf, AcceptWord, NextWord, CoreOk, Up, Advance;
      AdvanceAt(c, p);
      if hash.valid && p.outReady {
        if hash.idx == 23 {
          hash, done, state := HashOut(hash.idx, hash.data, false, false), true, IDLE;
        } else {
          hash := HashOut(Up(hash.idx), NextWord(c), hash.valid, hash.idx == 22);
        }
      }
    }

    // XOF words out
    method ClockXof(c: Ctl, p: Pins)
      requires CtlOk(c) && PinsOk(p) && c.(done := false) == State()
      requires c.state == XOF_PERMUTE_WAIT || c.state == XOF_WORD_OUT
      modifies this
      ensures State() == Advance(c, p)
    {
      hide InBytes, RateOf, AcceptWord, NextWord, CoreOk, Up, Advance;
      AdvanceAt(c, p);
      if c.state == XOF_PERMUTE_WAIT {
        if c.f.done {
          xof, state := XofOut(0, NextWord(c), true), XOF_WORD_OUT;
        }
      } else if xof.valid && p.xofReady {
        if xof.idx == 20 {
          xof, state := XofOut(0, xof.data, false), XOF_WAIT_NEXT;
        } else {
          xof := XofOut(Up(xof.idx), NextWord(c), true);
        }
      }
    }

    // The controller's own registers, for an edge without release and without an accepted XOF
    // request
    method ClockState(p: Pins)
      requires CtlOk(State()) && PinsOk(p)
      modifies this
      ensures State() == Advance(old(State()), p)
    {
      hide CtlOk, PinsOk, Advance;
      var c := State();
      done := false;
      match c.state {
        case IDLE => ClockIdle(c, p);
        case ABSORB_STREAM => ClockAbsorb(c, p);
        case PERMUTE_MORE_WAIT => ClockIdle(c, p);
        case SQUEEZE1 => ClockSqueeze(c, p);
        case HASH_STREAM1 => ClockStream1(c, p);
        case HASH_STREAM2P => ClockSecond(c, p);
        case HASH_STREAM2 => ClockStream2(c, p);
        case XOF_PERMUTE_WAIT => ClockXof(c, p);
        case XOF_WORD_OUT => ClockXof(c, p);
        case _ => ClockPermute(c, p);
      }
    }

    // The first seventeen words of a PRF, all sixteen of PRF2
    method ClockStream1(c: Ctl, p: Pins)
      requires CtlOk(c) && c.state == HASH_STREAM1 && c.(done := false) == State()
      modifies this
      ensures State() == Advance(c, p)
    {
      hide InBytes, RateOf, AcceptWord, NextWord, CoreOk, Up, Advance;
      AdvanceAt(c, p);
      if hash.valid && p.outReady {
        if mode == HASH_PRF2 && hash.idx == 15 {
          hash, done, state := HashOut(hash.idx, hash.data, false, false), true, IDLE;
        } else if mode == HASH_PRF2 {
          hash := HashOut(Up(hash.idx), NextWord(c), hash.valid, hash.idx == 14);
        } else if hash.idx == 16 {
          hash, state := HashOut(hash.idx, hash.data, false, false), HASH_STREAM2_GO;
        } else {
          hash := HashOut(Up(hash.idx), NextWord(c), hash.valid, false);
        }
      }
    }

    method Clock(rst: bool, p: Pins)
      requires CtlOk(State()) && PinsOk(p)
      modifies this, f
      ensures State() == if rst then RESET else Tick(old(State()), p)
    {
      hide CommandOf, CoreTick, Advance, AcceptXof, CoreOk, CommandOk, Zeros;
      var c := State();
      var m := CommandOf(c, p);
      if rst {
        state, rateByteCnt, fullBlock, mode, done := IDLE, 0, false, HASH_H, false;
        xof, hash := XofOut(0, 0, false), HashOut(0, 0, false, false);
      } else if p.release || AcceptXof(c, p) {
        xof, hash := XofOut(0, xof.data, false), HashOut(hash.idx, hash.data, false, false);
        done, rateByteCnt, fullBlock := false, 0, false;
        state := if p.release then IDLE else XOF_PERMUTE_GO;
      } else {
        ClockState(p);
      }
      f.Clock(rst, m);
    }
  }
}
