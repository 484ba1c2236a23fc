/** The matrix sampler wired to the sponge core, and its FIFO to the consumer: the machine delivers
    the matrix gen_matrix reads from SHAKE128, and only the consumer can delay it. */
module RtlXofMatrix {
  import opened Zetas
  import opened Codecs
  import opened RejSample
  import opened Sponge
  import opened KeccakPerm
  import opened Symmetric
  import opened Indcpa
  import H = RtlSponge
  import HP = RtlSpongeProof
  import HG = RtlSpongeProgress
  import M = RtlSampler
  import MP = RtlSamplerProof
  import MG = RtlSamplerProgress

  // ----- The stream as words and as bytes -----

  function LaneBytes(l: Lane): (b: seq<Byte>)
    ensures |b| == 8
  {
    seq(8, k requires 0 <= k < 8 => ByteInt(ByteOf(l, k)))
  }

  // The 64-bit word on the sampler's input
  function LaneNat(l: Lane): nat {
    ValueOf(LaneBytes(l))
  }

  // The two index bytes of a request
  function IndexBytes(x: nat, y: nat): Lane {
    (if x == 0 then 0 else 1) | (if y == 0 then 0 else 0x100)
  }

  function Start(seed: seq<Lane>, x: nat, y: nat): Lanes
    requires |seed| == 4
  {
    H.Loaded(seed, IndexBytes(x, y))
  }

  // Byte k of SHAKE128(seed || x || y)
  function StreamByte(seed: seq<Lane>, x: nat, y: nat, k: nat): Byte
    requires |seed| == 4
  {
    ByteInt(ByteOf(HP.XofWord(Start(seed, x, y), k / 8), k % 8))
  }

  lemma {:induction false} StreamIsShake(seed: seq<Lane>, x: nat, y: nat, n: nat, k: nat)
    requires |seed| == 4 && k < n
    ensures StreamByte(seed, x, y, k) == ByteInt(Hash(KeccakF, 168, HP.Request(seed, IndexBytes(x, y)), 0x1F, n)[k])
  {
    hide KeccakF, Out, Absorb, Finalize, H.Loaded, HP.Request, HP.Power, ByteOf, IndexBytes;
    HP.LoadedIsAbsorbed(seed, IndexBytes(x, y));
    HP.StreamAt(Start(seed, x, y), k, n);
    HP.WordByteIndex(k);
  }

  // The words a sampler takes, and the blocks the C code squeezes
  function XofWords(seed: seq<Lane>): MP.Words
    requires |seed| == 4
  {
    (x: nat, y: nat, i: nat) => LaneNat(HP.XofWord(Start(seed, x, y), i))
  }

  function XofBlocks(seed: seq<Lane>): (nat, nat, nat) -> seq<Byte>
    requires |seed| == 4
  {
    (x: nat, y: nat, i: nat) => BlockBytes(seed, x, y, i)
  }

  function BlockBytes(seed: seq<Lane>, x: nat, y: nat, i: nat): (b: seq<Byte>)
    requires |seed| == 4
    ensures |b| == 168
  {
    StreamBytes(seed, x, y, 168 * i + 168)[168 * i..]
  }

  function StreamBytes(seed: seq<Lane>, x: nat, y: nat, n: nat): (b: seq<Byte>)
    requires |seed| == 4
    ensures |b| == n
  {
    seq(n, k requires 0 <= k < n => StreamByte(seed, x, y, k))
  }

  lemma {:induction false} WordsFit(seed: seq<Lane>)
    requires |seed| == 4
    ensures MP.WordsOk(XofWords(seed))
  {
    hide ValueOf, Two, HP.XofWord, LaneBytes;
    forall x: nat, y: nat, i: nat
      ensures XofWords(seed)(x, y, i) < Two(64)
    {
      ValueBound(LaneBytes(HP.XofWord(Start(seed, x, y), i)));
    }
  }

  lemma {:induction false} WordsAreBytes(seed: seq<Lane>, x: nat, y: nat, n: nat)
    requires |seed| == 4
    ensures MP.StreamBits(XofWords(seed), x, y, n) == ValueOf(StreamBytes(seed, x, y, 8 * n))
  {
    hide ValueOf, Two, HP.XofWord, ByteInt, ByteOf, Start;
    if n == 0 {
      EmptyValue(StreamBytes(seed, x, y, 0));
    } else {
      WordsAreBytes(seed, x, y, n - 1);
      var l := LaneBytes(HP.XofWord(Start(seed, x, y), n - 1));
      var a := StreamBytes(seed, x, y, 8 * (n - 1));
      assert StreamBytes(seed, x, y, 8 * n) == a + l by {
        forall k | 8 * (n - 1) <= k < 8 * n
          ensures StreamByte(seed, x, y, k) == l[k - 8 * (n - 1)]
        {
          assert k / 8 == n - 1 && k % 8 == k - 8 * (n - 1);
        }
      }
      ValueAppend(a, l);
      Swap(Two(64 * (n - 1)), ValueOf(l));
    }
  }

  lemma Swap(a: nat, b: nat)
    ensures a * b == b * a
  {
  }

  lemma EmptyValue(b: seq<Byte>)
    requires |b| == 0
    ensures ValueOf(b) == 0
  {
  }

  lemma {:induction false} BlocksAreBytes(seed: seq<Lane>, x: nat, y: nat, m: nat)
    requires |seed| == 4
    ensures Blocks(StreamOf(XofBlocks(seed), x, y), m) == StreamBytes(seed, x, y, 168 * m)
  {
    hide StreamByte;
    if m > 0 {
      BlocksAreBytes(seed, x, y, m - 1);
    }
  }

  lemma {:induction false} SameStreams(seed: seq<Lane>)
    requires |seed| == 4
    ensures forall x, y, i :: |XofBlocks(seed)(x, y, i)| == XOF_BLOCKBYTES
    ensures MP.SameStream(XofWords(seed), XofBlocks(seed))
  {
    hide Blocks, MP.StreamBits, ValueOf, StreamByte, XofWords;
    forall x: nat, y: nat, n: nat, m: nat | 8 * n <= |Blocks(StreamOf(XofBlocks(seed), x, y), m)|
      ensures MP.StreamBits(XofWords(seed), x, y, n) == ValueOf(Blocks(StreamOf(XofBlocks(seed), x, y), m)[..8 * n])
    {
      BlocksAreBytes(seed, x, y, m);
      WordsAreBytes(seed, x, y, n);
      assert StreamBytes(seed, x, y, 168 * m)[..8 * n] == StreamBytes(seed, x, y, 8 * n);
    }
  }

  // ----- The machine -----

  // Sampler with FIFO and observer, sponge controller, and what an observer counts of the current
  // stream: finished blocks and words taken
  datatype Machine = Machine(s: MP.System, c: H.Ctl, blocks: nat, words: seq<Lane>)

  // One cycle: is the consumer ready, and what is on the hash side of the sponge
  datatype Env = Env(pairReady: bool, other: H.Pins)

  // The wires from the sampler to the sponge
  function SpongePins(m: Machine, seed: seq<Lane>, e: Env): H.Pins {
    H.Pins(false, e.other.mode, e.other.inValid, e.other.inData, e.other.inBytes, e.other.inLast,
           m.s.gm.reqValid, seed, IndexBytes(m.s.gm.reqX, m.s.gm.reqY), m.s.gm.release,
           m.s.gm.state == M.NEED_WORD && m.s.gm.bits <= 64, e.other.outReady)
  }

  // The wires from the sponge to the sampler, besides the word
  function SamplerEnv(m: Machine, transposed: bool, e: Env): MP.Env {
    MP.Env(false, transposed, H.XofReqReady(m.c), m.c.xofValid, e.pairReady)
  }

  // The word on the wire, whatever stream the observer has in mind
  function OnWire(l: Lane): MP.Words {
    (x: nat, y: nat, i: nat) => LaneNat(l)
  }

  predicate Fits(e: Env) {
    e.other.inBytes < 16
  }

  function Cycle(m: Machine, seed: seq<Lane>, transposed: bool, e: Env): Machine
    requires |seed| == 4 && H.CtlOk(m.c) && Fits(e)
  {
    var p := SpongePins(m, seed, e);
    Machine(MP.Cycle(m.s, OnWire(m.c.xofData), SamplerEnv(m, transposed, e)), H.Tick(m.c, p),
            if p.xofReq then 0 else HP.BlocksAfter(m.c, p, m.blocks),
            if p.xofReq then [] else HP.WordsAfter(m.c, p, m.words))
  }

  // Ready for a request, and staying so
  predicate Free(c: H.Ctl) {
    H.CtlOk(c) && H.XofReqReady(c) && c.f.st == H.CORE_IDLE
  }

  // The sponge, state by state of the sampler
  predicate Link(m: Machine, seed: seq<Lane>)
    requires |seed| == 4
  {
    var g := m.s.gm;
    && H.CtlOk(m.c)
    && (g.reqValid <==> g.state == M.WAIT_WORD)
    && (g.release ==> g.state == M.IDLE)
    && (g.state == M.XOF_INIT || g.state == M.XOF_ACCEPT || g.state == M.WAIT_WORD ==> Free(m.c))
    && (MP.Sampling(g.state) ==>
          HP.XofPhase(m.c, Start(seed, g.reqX, g.reqY), m.blocks, m.words) && |m.words| == m.s.n)
    && (g.state == M.REJECT || g.state == M.NEXT_POLY ==> m.c.state == H.XOF_WORD_OUT || m.c.state == H.XOF_WAIT_NEXT)
  }

  // An idle sponge, or one that holds its stream, keeps doing so
  lemma {:induction false} FreeStays(c: H.Ctl, p: H.Pins)
    requires Free(c) && HP.Calm(p) && !p.xofReady
    ensures Free(H.Tick(c, p))
  {
    hide H.CommandOf, H.CoreTick, H.Advance, H.AcceptWord, H.Tick, H.CtlOk;
    HP.CalmShape(c, p);
    HP.CalmTick(c, p);
    HP.NoWord(c, p);
    HP.CommandOff(c, p);
    HP.CoreParts(c, p);
    HG.IdleStays(c.f, H.CommandOf(c, p));
    FreeAdvance(c, p);
  }

  lemma FreeAdvance(c: H.Ctl, p: H.Pins)
    requires H.CtlOk(c) && H.XofReqReady(c) && !p.xofReady && !p.start
    ensures H.XofReqReady(H.Advance(c, p))
  {
    hide H.NextWord, H.AcceptWord, H.CoreOk, H.TakeWord, H.AfterBlock, H.FirstOut, H.Stream1Out, H.SecondOut,
      H.Stream2Out, H.FirstXof;
  }

  // A clearing edge leaves the controller in order
  lemma ReleaseOk(c: H.Ctl, p: H.Pins)
    requires H.CtlOk(c) && H.PinsOk(p) && p.release
    ensures H.CtlOk(H.Tick(c, p))
  {
    hide H.Advance, H.CommandOf, H.CoreTick;
  }

  // The sampler's control registers after an edge without start
  lemma GmTick(g: M.Gm, p: M.Pins)
    requires !p.start
    ensures var t := M.Tick(g, p);
      && t.reqValid == (g.state == M.XOF_ACCEPT) && t.release == (g.state == M.DONE)
      && (g.state != M.XOF_INIT ==> t.reqX == g.reqX && t.reqY == g.reqY)
      && match g.state
         case IDLE => t.state == M.IDLE
         case XOF_INIT => t.state == M.XOF_ACCEPT
         case XOF_ACCEPT => t.state == if p.reqReady then M.WAIT_WORD else M.XOF_ACCEPT
         case WAIT_WORD => t.state == M.NEED_WORD
         case NEED_WORD => t.state == if p.wordValid then M.REJECT else M.NEED_WORD
         case REJECT => t.state == M.REJECT || t.state == M.NEED_WORD || t.state == M.NEXT_POLY
         case NEXT_POLY => t.state == M.XOF_INIT || t.state == M.DONE
         case DONE => t.state == M.IDLE
  {
    hide M.TakenIn;
  }

  // Only a sampler that takes a word looks at it
  lemma WordUnused(g: M.Gm, p: M.Pins, w: nat)
    requires g.state == M.NEED_WORD && p.wordValid ==> w == p.word
    ensures M.Tick(g, p.(word := w)) == M.Tick(g, p)
  {
    hide M.TakenIn, M.RejectPair, M.RejectOne, M.NextPoly;
  }

  // The word on the wire is the next word of the requested stream
  lemma {:induction false} WordOnWire(m: Machine, seed: seq<Lane>)
    requires |seed| == 4 && Link(m, seed) && m.s.gm.state == M.NEED_WORD && m.c.xofValid
    ensures LaneNat(m.c.xofData) == XofWords(seed)(m.s.gm.reqX, m.s.gm.reqY, m.s.n)
  {
    hide H.CtlOk, HP.Waiting, HP.Power, KeccakF, ValueOf, LaneBytes, Start, Free, HP.XofWords;
    var x := Start(seed, m.s.gm.reqX, m.s.gm.reqY);
    HG.PhaseShape(m.c, x, m.blocks, m.words);
    assert m.c.state == H.XOF_WORD_OUT;
    assert (21 * m.blocks + m.c.xofIdx) / 21 == m.blocks && (21 * m.blocks + m.c.xofIdx) % 21 == m.c.xofIdx;
  }

  lemma {:induction false} SamplerStep(m: Machine, seed: seq<Lane>, transposed: bool, e: Env)
    requires |seed| == 4 && Link(m, seed) && Fits(e)
    ensures Cycle(m, seed, transposed, e).s == MP.Cycle(m.s, XofWords(seed), SamplerEnv(m, transposed, e))
  {
    hide Link, H.Tick, M.Tick, M.FifoTick, XofWords, LaneNat, H.CtlOk;
    LinkCtl(m, seed);
    var env := SamplerEnv(m, transposed, e);
    var w := XofWords(seed)(m.s.gm.reqX, m.s.gm.reqY, m.s.n);
    if m.s.gm.state == M.NEED_WORD && m.c.xofValid {
      WordOnWire(m, seed);
    }
    var p := MP.PinsOf(m.s, OnWire(m.c.xofData), env);
    WordUnused(m.s.gm, p, w);
    assert MP.PinsOf(m.s, XofWords(seed), env) == p.(word := w);
  }

  lemma LinkCtl(m: Machine, seed: seq<Lane>)
    requires |seed| == 4 && Link(m, seed)
    ensures H.CtlOk(m.c)
  {
    hide H.CtlOk, HP.XofPhase, Free;
  }

  // ----- Every cycle keeps the sponge and the sampler together -----

  // What the sampler's own invariant adds
  lemma SamplerFacts(m: Machine, seed: seq<Lane>, transposed: bool)
    requires |seed| == 4 && MP.Inv(XofWords(seed), m.s, transposed)
    ensures m.s.gm.state == M.WAIT_WORD ==> m.s.n == 0
    ensures m.s.gm.state == M.NEED_WORD ==> m.s.gm.bits < 12
  {
    hide MP.FinishedAll, MP.Room, MP.Stream, MP.Current, MP.Flat, MP.BufferOk, MP.Acc, XofWords, MP.Requested;
  }

  lemma QuietPins(m: Machine, seed: seq<Lane>, e: Env)
    requires |seed| == 4 && Fits(e)
    ensures var p := SpongePins(m, seed, e);
      && H.PinsOk(p) && p.release == m.s.gm.release && p.xofReq == m.s.gm.reqValid && !p.start
      && (!m.s.gm.release && !m.s.gm.reqValid ==> HP.Calm(p))
      && (m.s.gm.state != M.NEED_WORD ==> !p.xofReady)
      && (m.s.gm.state == M.NEED_WORD && m.s.gm.bits <= 64 ==> p.xofReady)
  {
    hide IndexBytes;
  }

  // The parts of a cycle
  lemma CycleParts(m: Machine, seed: seq<Lane>, transposed: bool, e: Env)
    requires |seed| == 4 && H.CtlOk(m.c) && Fits(e)
    ensures var p, t := SpongePins(m, seed, e), Cycle(m, seed, transposed, e);
      && H.PinsOk(p) && t.c == H.Tick(m.c, p)
      && t.s.gm == M.Tick(m.s.gm, MP.PinsOf(m.s, OnWire(m.c.xofData), SamplerEnv(m, transposed, e)))
      && t.s.n == MP.WordsNext(m.s, SamplerEnv(m, transposed, e))
      && (p.xofReq ==> t.blocks == 0 && t.words == [])
      && (!p.xofReq ==> t.blocks == HP.BlocksAfter(m.c, p, m.blocks) && t.words == HP.WordsAfter(m.c, p, m.words))
  {
    hide H.Tick, M.Tick, M.FifoTick, LaneNat, H.CtlOk, IndexBytes, MP.WordsNext, HP.BlocksAfter, HP.WordsAfter;
  }

  // While an entry is sampled the sponge goes on with its stream
  lemma {:induction false} StreamStep(m: Machine, seed: seq<Lane>, transposed: bool, e: Env)
    requires |seed| == 4 && Link(m, seed) && Fits(e) && MP.Sampling(m.s.gm.state)
    requires m.s.gm.state == M.NEED_WORD ==> m.s.gm.bits < 12
    ensures var t := Cycle(m, seed, transposed, e);
      && HP.XofPhase(t.c, Start(seed, m.s.gm.reqX, m.s.gm.reqY), t.blocks, t.words) && |t.words| == t.s.n
      && (m.s.gm.state == M.NEED_WORD && m.c.xofValid ==> t.c.state == H.XOF_WORD_OUT || t.c.state == H.XOF_WAIT_NEXT)
      && (m.s.gm.state != M.NEED_WORD ==> t.c.state == m.c.state)
  {
    hide H.Tick, M.Tick, H.CtlOk, HP.XofPhase, Start, Free, HP.Calm, SpongePins, Cycle, H.NextWord;
    LinkCtl(m, seed);
    QuietPins(m, seed, e);
    CycleParts(m, seed, transposed, e);
    var p, x := SpongePins(m, seed, e), Start(seed, m.s.gm.reqX, m.s.gm.reqY);
    HG.PhaseShape(m.c, x, m.blocks, m.words);
    HP.XofStep(m.c, p, x, m.blocks, m.words);
    if m.c.state == H.XOF_WORD_OUT {
      HP.XofOutTick(m.c, p);
    } else if m.c.state == H.XOF_WAIT_NEXT {
      HP.XofMoveTick(m.c, p);
    }
  }

  lemma SamplingLink(t: Machine, seed: seq<Lane>)
    requires |seed| == 4 && MP.Sampling(t.s.gm.state) && !t.s.gm.reqValid && !t.s.gm.release
    requires HP.XofPhase(t.c, Start(seed, t.s.gm.reqX, t.s.gm.reqY), t.blocks, t.words) && |t.words| == t.s.n
    requires t.s.gm.state == M.NEED_WORD || t.c.state == H.XOF_WORD_OUT || t.c.state == H.XOF_WAIT_NEXT
    ensures Link(t, seed)
  {
    hide HP.XofPhase, Start, Free, H.CtlOk;
    HG.PhaseShape(t.c, Start(seed, t.s.gm.reqX, t.s.gm.reqY), t.blocks, t.words);
  }

  lemma FreeLink(t: Machine, seed: seq<Lane>)
    requires |seed| == 4 && !t.s.gm.release && Free(t.c) && (t.s.gm.reqValid <==> t.s.gm.state == M.WAIT_WORD)
    requires t.s.gm.state == M.XOF_INIT || t.s.gm.state == M.XOF_ACCEPT || t.s.gm.state == M.WAIT_WORD
    ensures Link(t, seed)
  {
    hide HP.XofPhase, Start, H.CtlOk;
  }

  lemma RestLink(t: Machine, seed: seq<Lane>)
    requires |seed| == 4 && !t.s.gm.reqValid && (t.s.gm.release ==> t.s.gm.state == M.IDLE) && H.CtlOk(t.c)
    requires t.s.gm.state == M.IDLE || t.s.gm.state == M.DONE
    ensures Link(t, seed)
  {
    hide HP.XofPhase, Start, H.CtlOk, Free;
  }

  // Between entries, and before a request is out
  lemma {:induction false} FreeStep(m: Machine, seed: seq<Lane>, transposed: bool, e: Env)
    requires |seed| == 4 && Link(m, seed) && Fits(e)
    requires m.s.gm.state == M.XOF_INIT || m.s.gm.state == M.XOF_ACCEPT || m.s.gm.state == M.NEXT_POLY
    ensures Link(Cycle(m, seed, transposed, e), seed)
  {
    hide H.Tick, M.Tick, H.CtlOk, Start, HP.Calm, SpongePins, Cycle, HP.Power, HP.XofWords, HP.Waiting, Link;
    LinkFree(m, seed);
    QuietPins(m, seed, e);
    CycleParts(m, seed, transposed, e);
    GmTick(m.s.gm, MP.PinsOf(m.s, OnWire(m.c.xofData), SamplerEnv(m, transposed, e)));
    FreeStays(m.c, SpongePins(m, seed, e));
    var t := Cycle(m, seed, transposed, e);
    if t.s.gm.state == M.DONE {
      RestLink(t, seed);
    } else {
      FreeLink(t, seed);
    }
  }

  lemma LinkFree(m: Machine, seed: seq<Lane>)
    requires |seed| == 4 && Link(m, seed)
    requires m.s.gm.state == M.XOF_INIT || m.s.gm.state == M.XOF_ACCEPT || m.s.gm.state == M.WAIT_WORD
        || m.s.gm.state == M.NEXT_POLY
    ensures Free(m.c) && !m.s.gm.release && (m.s.gm.reqValid <==> m.s.gm.state == M.WAIT_WORD)
  {
    hide H.CtlOk, Start, HP.Power, HP.XofWords, HP.Waiting;
  }

  // The request is accepted at once: a new stream starts
  lemma {:induction false} RequestStep(m: Machine, seed: seq<Lane>, transposed: bool, e: Env)
    requires |seed| == 4 && Link(m, seed) && Fits(e) && m.s.gm.state == M.WAIT_WORD && m.s.n == 0
    ensures Link(Cycle(m, seed, transposed, e), seed)
  {
    hide H.Tick, M.Tick, H.CtlOk, HP.XofPhase, HP.Calm, Cycle, Link, IndexBytes, H.Loaded;
    LinkFree(m, seed);
    QuietPins(m, seed, e);
    CycleParts(m, seed, transposed, e);
    GmTick(m.s.gm, MP.PinsOf(m.s, OnWire(m.c.xofData), SamplerEnv(m, transposed, e)));
    HP.XofAccept(m.c, SpongePins(m, seed, e));
    SamplingLink(Cycle(m, seed, transposed, e), seed);
  }

  lemma {:induction false} SamplingStep(m: Machine, seed: seq<Lane>, transposed: bool, e: Env)
    requires |seed| == 4 && Link(m, seed) && Fits(e) && (m.s.gm.state == M.NEED_WORD || m.s.gm.state == M.REJECT)
    requires m.s.gm.state == M.NEED_WORD ==> m.s.gm.bits < 12
    ensures Link(Cycle(m, seed, transposed, e), seed)
  {
    hide H.Tick, M.Tick, H.CtlOk, HP.XofPhase, Start, Free, HP.Calm, Cycle, SpongePins;
    LinkCtl(m, seed);
    CycleParts(m, seed, transposed, e);
    StreamStep(m, seed, transposed, e);
    GmTick(m.s.gm, MP.PinsOf(m.s, OnWire(m.c.xofData), SamplerEnv(m, transposed, e)));
    SamplingLink(Cycle(m, seed, transposed, e), seed);
  }

  lemma {:induction false} RestStep(m: Machine, seed: seq<Lane>, transposed: bool, e: Env)
    requires |seed| == 4 && Link(m, seed) && Fits(e) && (m.s.gm.state == M.IDLE || m.s.gm.state == M.DONE)
    ensures Link(Cycle(m, seed, transposed, e), seed)
  {
    hide H.Tick, M.Tick, H.CtlOk, HP.XofPhase, Start, Free, HP.Calm, Cycle, SpongePins;
    LinkCtl(m, seed);
    QuietPins(m, seed, e);
    CycleParts(m, seed, transposed, e);
    GmTick(m.s.gm, MP.PinsOf(m.s, OnWire(m.c.xofData), SamplerEnv(m, transposed, e)));
    var p := SpongePins(m, seed, e);
    if m.s.gm.release {
      ReleaseOk(m.c, p);
    } else {
      HP.CalmTick(m.c, p);
    }
    RestLink(Cycle(m, seed, transposed, e), seed);
  }

  lemma {:induction false} LinkStep(m: Machine, seed: seq<Lane>, transposed: bool, e: Env)
    requires |seed| == 4 && Link(m, seed) && Fits(e) && MP.Inv(XofWords(seed), m.s, transposed)
    ensures Link(Cycle(m, seed, transposed, e), seed)
  {
    hide Link, Cycle, MP.Inv, Fits, XofWords;
    LinkCtl(m, seed);
    SamplerFacts(m, seed, transposed);
    match m.s.gm.state
    case IDLE => RestStep(m, seed, transposed, e);
    case DONE => RestStep(m, seed, transposed, e);
    case WAIT_WORD => RequestStep(m, seed, transposed, e);
    case NEED_WORD => SamplingStep(m, seed, transposed, e);
    case REJECT => SamplingStep(m, seed, transposed, e);
    case _ => FreeStep(m, seed, transposed, e);
  }

  // ----- Runs -----

  lemma RequestOk(c: H.Ctl, p: H.Pins)
    requires H.CtlOk(c) && H.PinsOk(p) && H.AcceptXof(c, p)
    ensures H.CtlOk(H.Tick(c, p))
  {
    hide H.Advance, H.CommandOf, H.CoreTick;
  }

  lemma CycleOk(m: Machine, seed: seq<Lane>, transposed: bool, e: Env)
    requires |seed| == 4 && H.CtlOk(m.c) && Fits(e)
    ensures H.CtlOk(Cycle(m, seed, transposed, e).c)
  {
    hide H.CtlOk, H.Tick, HP.Calm, Cycle, SpongePins, H.AcceptXof;
    var p := SpongePins(m, seed, e);
    QuietPins(m, seed, e);
    CycleParts(m, seed, transposed, e);
    if p.release {
      ReleaseOk(m.c, p);
    } else if H.AcceptXof(m.c, p) {
      RequestOk(m.c, p);
    } else {
      Unaccepted(m.c, p);
      HP.CalmTick(m.c, p.(xofReq := false));
    }
  }

  lemma SameWord(c: H.Ctl, p: H.Pins)
    ensures H.AcceptWord(c, p.(xofReq := false)) == H.AcceptWord(c, p) && H.InBytes(p.(xofReq := false)) == H.InBytes(p)
  {
    hide H.RateOf;
  }

  lemma SameOutputs(c: H.Ctl, p: H.Pins)
    ensures H.Stream1Out(c, p.(xofReq := false)) == H.Stream1Out(c, p)
    ensures H.Stream2Out(c, p.(xofReq := false)) == H.Stream2Out(c, p)
    ensures H.NextXof(c, p.(xofReq := false)) == H.NextXof(c, p)
  {
    hide H.NextWord, H.Up;
    if p.outReady {
    }
    if p.xofReady {
    }
  }

  lemma SameInputs(c: H.Ctl, p: H.Pins)
    ensures H.Begin(c, p.(xofReq := false)) == H.Begin(c, p)
    ensures H.TakeWord(c, p.(xofReq := false)) == H.TakeWord(c, p)
    ensures H.Onward(c, p.(xofReq := false)) == H.Onward(c, p)
  {
    hide H.RateOf, H.InBytes, H.AcceptWord;
    SameWord(c, p);
    if p.start {
    }
    if H.AcceptWord(c, p) {
    }
  }

  lemma SameAdvance(c: H.Ctl, p: H.Pins)
    requires H.CtlOk(c)
    ensures H.Advance(c, p.(xofReq := false)) == H.Advance(c, p)
  {
    hide H.CtlOk, H.Begin, H.TakeWord, H.AfterBlock, H.FirstOut, H.Stream1Out, H.SecondOut, H.Stream2Out, H.FirstXof,
      H.NextXof, H.Onward;
    SameInputs(c, p);
    SameOutputs(c, p);
  }

  lemma SameCommand(c: H.Ctl, p: H.Pins)
    requires H.CtlOk(c) && H.PinsOk(p) && !p.release && !H.AcceptXof(c, p)
    ensures H.CommandOf(c, p.(xofReq := false)) == H.CommandOf(c, p)
  {
    hide H.Masked, Shifted, H.RateOf, H.CtlOk, H.XofReqReady, H.InBytes, H.AcceptWord;
    SameWord(c, p);
  }

  // A request that is not accepted changes nothing
  lemma Unaccepted(c: H.Ctl, p: H.Pins)
    requires H.CtlOk(c) && H.PinsOk(p) && !p.release && !p.start && !H.AcceptXof(c, p)
    ensures HP.Calm(p.(xofReq := false)) && H.Tick(c, p) == H.Tick(c, p.(xofReq := false))
  {
    hide H.CoreTick, H.Advance, H.CommandOf, H.CtlOk, H.XofReqReady;
    SameAdvance(c, p);
    SameCommand(c, p);
  }

  function Run(m: Machine, seed: seq<Lane>, transposed: bool, es: seq<Env>): (t: Machine)
    requires |seed| == 4 && H.CtlOk(m.c) && forall i :: 0 <= i < |es| ==> Fits(es[i])
    ensures H.CtlOk(t.c)
  {
    hide Cycle, H.CtlOk;
    if es == [] then m
    else
      CycleOk(Run(m, seed, transposed, es[..|es| - 1]), seed, transposed, es[|es| - 1]);
      Cycle(Run(m, seed, transposed, es[..|es| - 1]), seed, transposed, es[|es| - 1])
  }

  // What the sampler sees of such a run
  function Envs(m: Machine, seed: seq<Lane>, transposed: bool, es: seq<Env>): (r: seq<MP.Env>)
    requires |seed| == 4 && H.CtlOk(m.c) && forall i :: 0 <= i < |es| ==> Fits(es[i])
    ensures |r| == |es|
  {
    if es == [] then []
    else
      Envs(m, seed, transposed, es[..|es| - 1])
      + [SamplerEnv(Run(m, seed, transposed, es[..|es| - 1]), transposed, es[|es| - 1])]
  }

  // The sampler has just started, the sponge can take a request
  predicate Ready(m: Machine) {
    MP.Started(m.s) && !m.s.gm.reqValid && !m.s.gm.release && Free(m.c)
  }

  lemma ReadyLink(m: Machine, seed: seq<Lane>)
    requires |seed| == 4 && Ready(m)
    ensures Link(m, seed)
  {
    hide Free, Link;
    FreeLink(m, seed);
  }

  lemma ReadyCtl(m: Machine)
    requires Ready(m)
    ensures H.CtlOk(m.c) && MP.Started(m.s)
  {
    hide H.CtlOk, MP.Started;
  }

  // The composed machine is the sampler on the words of SHAKE128
  lemma {:induction false} RunSimulates(m: Machine, seed: seq<Lane>, transposed: bool, es: seq<Env>)
    requires |seed| == 4 && Ready(m) && H.CtlOk(m.c) && forall i :: 0 <= i < |es| ==> Fits(es[i])
    ensures var t, rs := Run(m, seed, transposed, es), Envs(m, seed, transposed, es);
      && Link(t, seed) && t.s == MP.Run(m.s, XofWords(seed), rs)
      && (forall i :: 0 <= i < |rs| ==> MP.Steady(rs[i], transposed))
      && MP.Inv(XofWords(seed), t.s, transposed)
    decreases |es|
  {
    hide Link, Cycle, MP.Inv, MP.Cycle, MP.Started, Ready, Fits, XofWords, H.CtlOk, MP.WordsOk;
    WordsFit(seed);
    ReadyCtl(m);
    if es == [] {
      ReadyLink(m, seed);
      MP.StartedInv(XofWords(seed), m.s, transposed);
    } else {
      var front, e := es[..|es| - 1], es[|es| - 1];
      RunSimulates(m, seed, transposed, front);
      var q := Run(m, seed, transposed, front);
      LinkCtl(q, seed);
      SamplerStep(q, seed, transposed, e);
      LinkStep(q, seed, transposed, e);
      var rs := Envs(m, seed, transposed, es);
      assert rs[..|rs| - 1] == Envs(m, seed, transposed, front);
      MP.InvStep(XofWords(seed), q.s, SamplerEnv(q, transposed, e), transposed);
    }
  }

  // ----- Only the consumer can delay it -----

  predicate Stuck(m: Machine, e: Env) {
    || (m.s.gm.state == M.REJECT && !M.CoeffReady(m.s.fifo, e.pairReady) && !e.pairReady)
    || (m.s.gm.state == M.IDLE && M.PairValid(m.s.fifo) && !e.pairReady)
  }

  // Edges to the next word, if the sampler waits for one
  function Delay(m: Machine): nat {
    if m.s.gm.state == M.NEED_WORD then HG.XofLeft(m.c) else 28
  }

  function Measure(m: Machine, limit: nat): int {
    29 * MG.Measure(m.s, limit) + Delay(m)
  }

  lemma DelayBound(m: Machine, seed: seq<Lane>)
    requires |seed| == 4 && Link(m, seed)
    ensures Delay(m) <= 28
  {
    hide Free, HP.XofPhase, Start, H.CtlOk;
    if m.s.gm.state == M.NEED_WORD {
      HG.PhaseShape(m.c, Start(seed, m.s.gm.reqX, m.s.gm.reqY), m.blocks, m.words);
    }
  }

  // A sampler that waits for a word waits for a sponge that moves
  lemma {:induction false} WordComes(m: Machine, seed: seq<Lane>, transposed: bool, e: Env)
    requires |seed| == 4 && Link(m, seed) && Fits(e) && m.s.gm.state == M.NEED_WORD && m.s.gm.bits < 12 && !m.c.xofValid
    ensures var t := Cycle(m, seed, transposed, e); t.s.gm.state == M.NEED_WORD && Delay(t) < Delay(m)
  {
    hide H.Tick, M.Tick, H.CtlOk, HP.XofPhase, Start, Free, HP.Calm, Cycle, SpongePins, HG.XofLeft;
    LinkCtl(m, seed);
    QuietPins(m, seed, e);
    CycleParts(m, seed, transposed, e);
    HG.PhaseShape(m.c, Start(seed, m.s.gm.reqX, m.s.gm.reqY), m.blocks, m.words);
    GmTick(m.s.gm, MP.PinsOf(m.s, OnWire(m.c.xofData), SamplerEnv(m, transposed, e)));
    HG.XofEffect(m.c, SpongePins(m, seed, e));
  }

  // Otherwise the sampler's waits are the consumer's
  lemma SameStuck(m: Machine, seed: seq<Lane>, transposed: bool, e: Env)
    requires |seed| == 4 && Link(m, seed) && !(m.s.gm.state == M.NEED_WORD && !m.c.xofValid)
    ensures MG.Stuck(m.s, SamplerEnv(m, transposed, e)) == Stuck(m, e)
  {
    hide M.CoeffReady, M.PairValid, HP.XofPhase, H.CtlOk;
  }

  lemma {:induction false} EdgeEffect(m: Machine, seed: seq<Lane>, transposed: bool, e: Env, limit: nat)
    requires |seed| == 4 && Link(m, seed) && Fits(e) && MP.Inv(XofWords(seed), m.s, transposed)
    requires MG.Enough(XofWords(seed), limit) && MG.InLimit(m.s, limit)
    ensures var t := Cycle(m, seed, transposed, e);
      && MG.InLimit(t.s, limit) && (MG.Over(m.s) ==> MG.Over(t.s))
      && (MG.Over(m.s) || Measure(t, limit) <= Measure(m, limit) - (if Stuck(m, e) then 0 else 1))
  {
    hide Link, Cycle, MP.Inv, MP.Cycle, Fits, XofWords, H.CtlOk, MP.WordsOk, MG.Enough, MG.InLimit, MG.Measure,
      MG.Stuck, Stuck, Delay;
    LinkCtl(m, seed);
    WordsFit(seed);
    SamplerFacts(m, seed, transposed);
    SamplerStep(m, seed, transposed, e);
    LinkStep(m, seed, transposed, e);
    MG.EdgeEffect(XofWords(seed), m.s, SamplerEnv(m, transposed, e), transposed, limit);
    DelayBound(Cycle(m, seed, transposed, e), seed);
    if m.s.gm.state == M.NEED_WORD && !m.c.xofValid {
      WordComes(m, seed, transposed, e);
    } else {
      SameStuck(m, seed, transposed, e);
      StuckDelay(m, e);
    }
  }

  lemma StuckDelay(m: Machine, e: Env)
    ensures Stuck(m, e) ==> Delay(m) == 28
  {
  }

  // Cycles in which the consumer holds nothing up
  function Moves(m: Machine, seed: seq<Lane>, transposed: bool, es: seq<Env>): nat
    requires |seed| == 4 && H.CtlOk(m.c) && forall i :: 0 <= i < |es| ==> Fits(es[i])
  {
    if es == [] then 0
    else
      Moves(m, seed, transposed, es[..|es| - 1])
      + if Stuck(Run(m, seed, transposed, es[..|es| - 1]), es[|es| - 1]) then 0 else 1
  }

  function Budget(limit: nat): nat {
    29 * MG.Budget(limit)
  }

  lemma {:induction false} MovesBound(m: Machine, seed: seq<Lane>, transposed: bool, es: seq<Env>, limit: nat)
    requires |seed| == 4 && Ready(m) && H.CtlOk(m.c) && forall i :: 0 <= i < |es| ==> Fits(es[i])
    requires MG.Enough(XofWords(seed), limit)
    ensures var t := Run(m, seed, transposed, es);
      && MG.InLimit(t.s, limit)
      && (MG.Over(t.s) || Moves(m, seed, transposed, es) + Measure(t, limit) <= Budget(limit) + 28)
    decreases |es|
  {
    hide Link, Cycle, MP.Inv, MP.Run, Fits, XofWords, H.CtlOk, MG.Enough, MG.InLimit, MG.Over, Stuck, Ready, Measure,
      Budget;
    if es == [] {
      StartMeasure(m, limit);
    } else {
      var front, e := es[..|es| - 1], es[|es| - 1];
      MovesBound(m, seed, transposed, front, limit);
      RunSimulates(m, seed, transposed, front);
      EdgeEffect(Run(m, seed, transposed, front), seed, transposed, e, limit);
    }
  }

  lemma StartMeasure(m: Machine, limit: nat)
    requires Ready(m)
    ensures MG.InLimit(m.s, limit) && Measure(m, limit) == Budget(limit) + 28
  {
    hide MG.InLimit, MG.Measure, MG.Budget, Free;
    MG.StartMeasure(m.s, limit);
  }

  // Whatever the consumer does, after enough cycles that it does not hold up it has received exactly
  // the four entries gen_matrix computes from the stream, in order
  lemma {:induction false} MatrixDelivered(m: Machine, seed: seq<Lane>, transposed: bool, es: seq<Env>, limit: nat)
    requires |seed| == 4 && Ready(m) && H.CtlOk(m.c) && forall i :: 0 <= i < |es| ==> Fits(es[i])
    requires XofOk(XofBlocks(seed), limit) && Moves(m, seed, transposed, es) >= Budget(21 * limit)
    ensures var t := Run(m, seed, transposed, es);
      t.s.gm.state == M.IDLE && t.s.delivered
      == MP.MatrixEntry(XofBlocks(seed), limit, transposed, 0) + MP.MatrixEntry(XofBlocks(seed), limit, transposed, 1)
       + MP.MatrixEntry(XofBlocks(seed), limit, transposed, 2) + MP.MatrixEntry(XofBlocks(seed), limit, transposed, 3)
  {
    hide Link, MP.Inv, MP.Run, Fits, XofWords, XofBlocks, H.CtlOk, MG.Enough, MG.InLimit, Ready, MG.Measure,
      MP.Steady, MP.WordsOk, MP.SameStream, XofOk, Run, Moves, MP.MatrixEntry, Delay, MP.Started;
    var t := Run(m, seed, transposed, es);
    ReadyCtl(m);
    WordsFit(seed);
    SameStreams(seed);
    MG.BlocksAreEnough(XofWords(seed), XofBlocks(seed), limit);
    MovesBound(m, seed, transposed, es, 21 * limit);
    RunSimulates(m, seed, transposed, es);
    if !MG.Over(t.s) {
      MG.MeasurePositive(XofWords(seed), t.s, transposed, 21 * limit);
    }
    MG.OverIsMatrix(m.s, XofWords(seed), Envs(m, seed, transposed, es), transposed, XofBlocks(seed), limit);
  }

  // ----- The matrix of K-PKE -----

  // The 32 bytes of the seed register
  function SeedBytes(seed: seq<Lane>): (b: seq<Byte>)
    requires |seed| == 4
    ensures |b| == 32
  {
    Ints(HP.WordBytes(seed[0], 8) + HP.WordBytes(seed[1], 8) + HP.WordBytes(seed[2], 8) + HP.WordBytes(seed[3], 8))
  }

  lemma IndexIs(x: nat, y: nat)
    requires x < 2 && y < 2
    ensures HP.WordBytes(IndexBytes(x, y), 2) == Bits([x % 256, y % 256])
  {
    assert ByteBits(0) == 0 && ByteBits(1) == 1;
    hide ByteBits;
    assert ByteOf(IndexBytes(x, y), 0) == ByteBits(x) && ByteOf(IndexBytes(x, y), 1) == ByteBits(y);
  }

  // The request is the seed with its two index bytes
  lemma {:induction false} RequestIs(seed: seq<Lane>, x: nat, y: nat)
    requires |seed| == 4 && x < 2 && y < 2
    ensures HP.Request(seed, IndexBytes(x, y)) == Bits(SeedBytes(seed) + [x % 256, y % 256])
  {
    hide Bits, Ints, IndexBytes, HP.WordBytes;
    IndexIs(x, y);
    BitsAppend(SeedBytes(seed), [x % 256, y % 256]);
    BitsOfInts(HP.WordBytes(seed[0], 8) + HP.WordBytes(seed[1], 8) + HP.WordBytes(seed[2], 8)
      + HP.WordBytes(seed[3], 8));
  }

  lemma {:induction false} SameBlock(seed: seq<Lane>, x: nat, y: nat, i: nat)
    requires |seed| == 4 && x < 2 && y < 2
    ensures XofBlocks(seed)(x, y, i) == Xof(SeedBytes(seed))(x, y, i)
  {
    hide StreamByte, KeccakF, Bits, SeedBytes, IndexBytes, HP.Request, ByteInt, Hash;
    RequestIs(seed, x, y);
    forall k | 0 <= k < 168
      ensures BlockBytes(seed, x, y, i)[k] == XofBlock(SeedBytes(seed), x, y, i)[k]
    {
      StreamIsShake(seed, x, y, 168 * i + 168, 168 * i + k);
    }
  }

  lemma {:induction false} SameBlocks(seed: seq<Lane>, x: nat, y: nat, m: nat)
    requires |seed| == 4 && x < 2 && y < 2
    ensures forall i :: |StreamOf(XofBlocks(seed), x, y)(i)| == XOF_BLOCKBYTES
    ensures forall i :: |StreamOf(Xof(SeedBytes(seed)), x, y)(i)| == XOF_BLOCKBYTES
    ensures Blocks(StreamOf(XofBlocks(seed), x, y), m) == Blocks(StreamOf(Xof(SeedBytes(seed)), x, y), m)
  {
    hide BlockBytes, XofBlock, SeedBytes;
    if m > 0 {
      SameBlocks(seed, x, y, m - 1);
      SameBlock(seed, x, y, m - 1);
    }
  }

  lemma {:induction false} SameEntries(seed: seq<Lane>, limit: nat)
    requires |seed| == 4 && XofOk(Xof(SeedBytes(seed)), limit)
    ensures XofOk(XofBlocks(seed), limit)
    ensures forall x: nat, y: nat :: x < 2 && y < 2 ==>
        EntryOf(XofBlocks(seed), limit, x, y) == EntryOf(Xof(SeedBytes(seed)), limit, x, y)
  {
    hide BlockBytes, XofBlock, SeedBytes, AllAccepted, Blocks;
    forall x: nat, y: nat | x < 2 && y < 2
      ensures Blocks(StreamOf(XofBlocks(seed), x, y), limit) == Blocks(StreamOf(Xof(SeedBytes(seed)), x, y), limit)
    {
      SameBlocks(seed, x, y, limit);
    }
  }

  // The consumer receives the K-PKE matrix of this seed, or its transpose, row by row
  lemma {:induction false} HardwareMatrix(m: Machine, seed: seq<Lane>, transposed: bool, es: seq<Env>, limit: nat)
    requires |seed| == 4 && Ready(m) && H.CtlOk(m.c) && forall i :: 0 <= i < |es| ==> Fits(es[i])
    requires XofOk(Xof(SeedBytes(seed)), limit) && Moves(m, seed, transposed, es) >= Budget(21 * limit)
    ensures ValidSampler(KyberSampler())
    ensures var t, a := Run(m, seed, transposed, es), MatrixOf(KyberSampler(), SeedBytes(seed));
      && t.s.gm.state == M.IDLE
      && t.s.delivered == if transposed then a.a00 + a.a10 + a.a01 + a.a11 else a.a00 + a.a01 + a.a10 + a.a11
  {
    hide Run, Ready, Moves, Fits, H.CtlOk, Xof, XofBlocks, SeedBytes, EntryOf, XofOk, KyberSampler;
    KyberValid();
    SameEntries(seed, limit);
    MatrixDelivered(m, seed, transposed, es, limit);
    MatrixIsGenerated(SeedBytes(seed), limit, 0, 0);
    MatrixIsGenerated(SeedBytes(seed), limit, 0, 1);
    MatrixIsGenerated(SeedBytes(seed), limit, 1, 0);
    MatrixIsGenerated(SeedBytes(seed), limit, 1, 1);
  }
}
