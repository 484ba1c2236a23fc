/** Whatever the word arrival and the consumer do, the sampler and its FIFO deliver, in order, the
    first 256 accepted values of each of the four XOF streams, and the FIFO never overflows. */
module RtlSamplerProof {
  import opened Division
  import opened ModQ
  import opened Zetas
  import opened Codecs
  import opened RejSample
  import opened RtlSampler

  // 64-bit word i of the XOF stream for index bytes x and y
  type Words = (nat, nat, nat) -> nat

  ghost predicate WordsOk(words: Words) {
    forall x, y, i :: words(x, y, i) < Two(64)
  }

  // The stream after n words
  function StreamBits(words: Words, x: nat, y: nat, n: nat): nat {
    if n == 0 then 0 else StreamBits(words, x, y, n - 1) + words(x, y, n - 1) * Two(64 * (n - 1))
  }

  // A finished entry: index bytes, words taken, candidates looked at
  datatype Finished = Finished(x: nat, y: nat, n: nat, popped: nat)

  // The sampler, its FIFO, and what an observer has counted: words taken and candidates popped for
  // the current entry, the finished entries, and the coefficients delivered to the consumer
  datatype System = System(gm: Gm, fifo: Fifo, n: nat, popped: nat, finished: seq<Finished>, delivered: seq<int>)

  datatype Env = Env(start: bool, transposed: bool, reqReady: bool, wordValid: bool, pairReady: bool)

  function PinsOf(s: System, words: Words, e: Env): Pins {
    Pins(e.start, e.transposed, e.reqReady, e.wordValid, words(s.gm.reqX, s.gm.reqY, s.n),
      CoeffReady(s.fifo, e.pairReady))
  }

  predicate Pops(g: Gm, ready: bool) {
    g.state == REJECT && g.coeffCnt != 256 && ready && g.bits >= 12
  }

  function PoppedNext(s: System, ready: bool): nat {
    if s.gm.state == XOF_INIT then 0
    else if Pops(s.gm, ready) then s.popped + (if s.gm.bits >= 24 then 2 else 1)
    else s.popped
  }

  function WordsNext(s: System, e: Env): nat {
    if s.gm.state == XOF_ACCEPT && e.reqReady then 0
    else if s.gm.state == NEED_WORD && e.wordValid then s.n + 1
    else s.n
  }

  function Cycle(s: System, words: Words, e: Env): System {
    var p := PinsOf(s, words, e);
    System(Tick(s.gm, p), FifoTick(s.fifo, s.gm, e.pairReady), WordsNext(s, e), PoppedNext(s, p.coeffReady),
           if s.gm.state == NEXT_POLY then s.finished + [Finished(s.gm.reqX, s.gm.reqY, s.n, s.popped)] else s.finished,
           if PopCount(s.fifo, e.pairReady) == 2 then s.delivered + Offered(s.fifo) else s.delivered)
  }

  // ----- The FIFO -----

  predicate FifoOk(f: Fifo) {
    f.count <= 8 && f.rd < 8 && f.wr == (f.rd + f.count) % 8
  }

  function Contents(f: Fifo): (r: seq<int>)
    requires FifoOk(f)
    ensures |r| == f.count
  {
    seq(f.count, i requires 0 <= i < f.count => f.slots[(f.rd + i) % 8])
  }

  // The coefficients in the sampler's output registers
  function Pending(g: Gm): seq<int> {
    (if g.a.we then [g.a.dout] else []) + (if g.b.we then [g.b.dout] else [])
  }

  predicate WritesOk(g: Gm) {
    g.b.we ==> g.a.we
  }

  lemma Wrap(a: nat, b: nat)
    ensures (a % 8 + b) % 8 == (a + b) % 8
  {
  }

  lemma SameSlot(a: nat, b: nat)
    requires a <= b < a + 8 && a % 8 == b % 8
    ensures a == b
  {
  }

  // Entry i of the queue is not overwritten
  lemma PushKeeps(f: Fifo, g: Gm, pairReady: bool, i: nat)
    requires FifoOk(f) && WritesOk(g) && f.count + PushCount(g) <= 8 && i < f.count
    ensures FifoTick(f, g, pairReady).slots[(f.rd + i) % 8] == f.slots[(f.rd + i) % 8]
  {
    Wrap(f.rd + f.count, 1);
    if g.a.we {
      OtherSlot(f.rd + i, f.rd + f.count);
    }
    if g.b.we {
      OtherSlot(f.rd + i, f.rd + f.count + 1);
    }
  }

  lemma OtherSlot(a: nat, b: nat)
    requires a < b < a + 8
    ensures a % 8 != b % 8
  {
    if a % 8 == b % 8 {
      SameSlot(a, b);
    }
  }

  // The new coefficients follow the queue
  lemma PushPuts(f: Fifo, g: Gm, pairReady: bool)
    requires FifoOk(f) && WritesOk(g) && f.count + PushCount(g) <= 8
    ensures g.a.we ==> FifoTick(f, g, pairReady).slots[(f.rd + f.count) % 8] == g.a.dout
    ensures g.b.we ==> FifoTick(f, g, pairReady).slots[(f.rd + f.count + 1) % 8] == g.b.dout
  {
    Wrap(f.rd + f.count, 1);
  }

  lemma FifoShape(f: Fifo, g: Gm, pairReady: bool)
    requires FifoOk(f) && WritesOk(g) && f.count + PushCount(g) <= 8
    ensures var h, k := FifoTick(f, g, pairReady), PopCount(f, pairReady);
      FifoOk(h) && h.count == f.count - k + PushCount(g) && k <= f.count && h.rd == (f.rd + k) % 8
  {
    hide PopCount, PushCount;
    PopRange(f, pairReady);
    WriteSlot(f.rd, f.count, PopCount(f, pairReady), PushCount(g));
    SmallRemainder(f.count - PopCount(f, pairReady) + PushCount(g), 16);
  }

  lemma PopRange(f: Fifo, pairReady: bool)
    ensures PopCount(f, pairReady) <= f.count
  {
  }

  lemma WriteSlot(rd: nat, count: nat, k: nat, m: nat)
    requires k <= count
    ensures ((rd + count) % 8 + m) % 8 == ((rd + k) % 8 + (count - k + m)) % 8
  {
    Wrap(rd + count, m);
    Wrap(rd + k, count - k + m);
  }

  lemma PendingSize(g: Gm)
    ensures |Pending(g)| == PushCount(g)
  {
  }

  lemma PopTwo(f: Fifo, pairReady: bool)
    ensures PopCount(f, pairReady) == 2 ==> f.count >= 2
  {
  }

  // One slot after the edge
  lemma FifoSlot(f: Fifo, g: Gm, pairReady: bool, i: nat)
    requires FifoOk(f) && WritesOk(g) && f.count + PushCount(g) <= 8
    requires i < f.count - PopCount(f, pairReady) + PushCount(g)
    ensures var h, k := FifoTick(f, g, pairReady), PopCount(f, pairReady);
      k <= f.count && |Pending(g)| == PushCount(g)
      && h.slots[(h.rd + i) % 8] == (Contents(f)[k..] + Pending(g))[i]
  {
    hide FifoTick, FifoOk, PopCount;
    var k := PopCount(f, pairReady);
    FifoShape(f, g, pairReady);
    PushPuts(f, g, pairReady);
    PendingSize(g);
    Wrap(f.rd + k, i);
    if k + i < f.count {
      PushKeeps(f, g, pairReady, k + i);
    }
  }

  lemma {:induction false} FifoStep(f: Fifo, g: Gm, pairReady: bool)
    requires FifoOk(f) && WritesOk(g) && f.count + PushCount(g) <= 8
    ensures var h, k := FifoTick(f, g, pairReady), PopCount(f, pairReady);
      && FifoOk(h) && h.count == f.count - k + PushCount(g) && k <= f.count
      && Contents(h) == Contents(f)[k..] + Pending(g)
      && (k == 2 ==> Offered(f) == Contents(f)[..2])
  {
    hide FifoTick, FifoOk, PopCount, PushCount;
    var h, k := FifoTick(f, g, pairReady), PopCount(f, pairReady);
    FifoShape(f, g, pairReady);
    var want := Contents(f)[k..] + Pending(g);
    PendingSize(g);
    forall i | 0 <= i < h.count ensures h.slots[(h.rd + i) % 8] == want[i] {
      FifoSlot(f, g, pairReady, i);
    }
    Head(f);
    PopTwo(f, pairReady);
  }

  lemma Head(f: Fifo)
    requires FifoOk(f)
    ensures f.count >= 2 ==> Offered(f) == Contents(f)[..2]
  {
  }

  // Two coefficients can still be written after ready drops, and no more fit
  lemma FifoSpace(f: Fifo, g: Gm, pairReady: bool, push: nat)
    requires FifoOk(f) && WritesOk(g) && f.count + PushCount(g) <= 8
    requires push <= 2 && (push > 0 ==> CoeffReady(f, pairReady))
    ensures FifoTick(f, g, pairReady).count + push <= 8
  {
  }

  // ----- The sample buffer -----

  lemma {:induction false} StreamBound(words: Words, x: nat, y: nat, n: nat)
    requires WordsOk(words)
    ensures StreamBits(words, x, y, n) < Two(64 * n)
  {
    hide Two;
    if n == 0 {
      TwoZero();
    } else {
      StreamBound(words, x, y, n - 1);
      TwoProduct(64, 64 * (n - 1));
      var w, t := words(x, y, n - 1), Two(64 * (n - 1));
      MulNonNeg(Two(64) - 1 - w, t);
      assert (Two(64) - 1 - w) * t == Two(64) * t - t - w * t;
    }
  }

  lemma StreamContinues(words: Words, x: nat, y: nat, n: nat)
    requires WordsOk(words)
    ensures Continues(StreamBits(words, x, y, n), StreamBits(words, x, y, n + 1), 64 * n)
  {
    hide Two;
    StreamBound(words, x, y, n);
    var w, t := words(x, y, n), Two(64 * n);
    MulNonNeg(w, t);
    DivAdd(0, w, t);
  }

  // sample_buf holds what is left of the stream after popped candidates
  predicate BufferOk(words: Words, s: System) {
    && 12 * s.popped + s.gm.bits == 64 * s.n
    && s.gm.buf == StreamBits(words, s.gm.reqX, s.gm.reqY, s.n) / Two(12 * s.popped)
  }

  lemma QuotientBelow(n: nat, a: nat, b: nat)
    requires b > 0 && n < a * b
    ensures n / b < a
  {
    assert n == n / b * b + n % b;
    DivBelow(n, b, a, n / b, n % b);
  }

  lemma BufferBound(words: Words, s: System)
    requires WordsOk(words) && BufferOk(words, s)
    ensures s.gm.buf < Two(s.gm.bits)
  {
    hide Two, StreamBits;
    StreamBound(words, s.gm.reqX, s.gm.reqY, s.n);
    TwoProduct(s.gm.bits, 12 * s.popped);
    QuotientBelow(StreamBits(words, s.gm.reqX, s.gm.reqY, s.n), Two(s.gm.bits), Two(12 * s.popped));
  }

  // Taking a word: nothing is lost at the top, and the buffer is the longer stream's
  lemma {:induction false} TakeWord(words: Words, s: System, w: nat)
    requires WordsOk(words) && BufferOk(words, s) && s.gm.bits <= 64 && w == words(s.gm.reqX, s.gm.reqY, s.n)
    ensures var b := s.gm.buf + w * Two(s.gm.bits);
      0 <= b < Two(128) && b == StreamBits(words, s.gm.reqX, s.gm.reqY, s.n + 1) / Two(12 * s.popped)
  {
    hide Two, BufferOk;
    BufferBound(words, s);
    WordFits(s.gm.buf, w, s.gm.bits);
    LongerStream(words, s, w);
  }

  lemma WordFits(buf: nat, w: nat, bits: nat)
    requires buf < Two(bits) && w < Two(64) && bits <= 64
    ensures 0 <= buf + w * Two(bits) < Two(128)
  {
    hide Two;
    var t := Two(bits);
    MulNonNeg(w, t);
    MulNonNeg(Two(64) - 1 - w, t);
    assert (Two(64) - 1 - w) * t == Two(64) * t - t - w * t;
    TwoProduct(64, bits);
    TwoMonotone(64 + bits, 128);
  }

  lemma LongerStream(words: Words, s: System, w: nat)
    requires BufferOk(words, s) && w == words(s.gm.reqX, s.gm.reqY, s.n)
    ensures s.gm.buf + w * Two(s.gm.bits) == StreamBits(words, s.gm.reqX, s.gm.reqY, s.n + 1) / Two(12 * s.popped)
  {
    hide Two;
    var bits, d := s.gm.bits, Two(12 * s.popped);
    var before := StreamBits(words, s.gm.reqX, s.gm.reqY, s.n);
    TwoProduct(bits, 12 * s.popped);
    Regrouped(w, Two(bits), d);
    MulNonNeg(w, Two(bits));
    DivAdd(before, w * Two(bits), d);
  }

  lemma Regrouped(w: nat, t: nat, d: nat)
    ensures w * (t * d) == (w * t) * d
  {
  }

  // The low twelve bits are the next candidate, and dropping them pops it
  lemma PopOne(n: nat, c: nat)
    ensures var b := n / Two(12 * c);
      b % 4096 == Candidate(n, c) && b / 4096 == n / Two(12 * (c + 1))
  {
    hide Two;
    TwoTwelve();
    TwoProduct(12 * c, 12);
    DivDiv(n, Two(12 * c), 4096);
  }

  // ----- The invariant -----

  function Acc(words: Words, s: System): seq<int> {
    Accepted(StreamBits(words, s.gm.reqX, s.gm.reqY, s.n), s.popped)
  }

  predicate Sampling(st: State) {
    st == NEED_WORD || st == REJECT || st == NEXT_POLY
  }

  // What the current entry has put out
  function Current(words: Words, s: System): seq<int> {
    if Sampling(s.gm.state) && s.gm.coeffCnt <= |Acc(words, s)| then Acc(words, s)[..s.gm.coeffCnt] else []
  }

  predicate FinishedOk(words: Words, f: Finished) {
    12 * f.popped <= 64 * f.n && |Accepted(StreamBits(words, f.x, f.y, f.n), f.popped)| >= 256
  }

  // The 256 coefficients of a finished entry
  function EntryValues(words: Words, f: Finished): (r: seq<int>)
    requires FinishedOk(words, f)
    ensures |r| == 256
  {
    Accepted(StreamBits(words, f.x, f.y, f.n), f.popped)[..256]
  }

  function Flat(words: Words, fs: seq<Finished>): seq<int>
    requires forall f :: f in fs ==> FinishedOk(words, f)
  {
    if fs == [] then []
    else
      assert fs[|fs| - 1] in fs;
      Flat(words, fs[..|fs| - 1]) + EntryValues(words, fs[|fs| - 1])
  }

  function Index(g: Gm): nat {
    2 * g.loopI + g.loopJ
  }

  // The index bytes of entry e, in the order the controller visits the matrix
  function OrderX(e: nat, transposed: bool): nat {
    if transposed then e / 2 else e % 2
  }

  function OrderY(e: nat, transposed: bool): nat {
    if transposed then e % 2 else e / 2
  }

  predicate FinishedAll(words: Words, s: System, transposed: bool) {
    && (forall f :: f in s.finished ==> FinishedOk(words, f))
    && (forall k :: 0 <= k < |s.finished| ==>
          s.finished[k].x == OrderX(k, transposed) && s.finished[k].y == OrderY(k, transposed))
  }

  predicate Requested(s: System, transposed: bool) {
    s.gm.reqX == OrderX(Index(s.gm), transposed) && s.gm.reqY == OrderY(Index(s.gm), transposed)
  }

  // The buffer, the counter and the position in the matrix, state by state
  predicate Phase(words: Words, s: System, transposed: bool) {
    var g := s.gm;
    && g.loopI < 2 && g.loopJ < 2
    && |s.finished| == (if g.state == IDLE || g.state == DONE then 4 else Index(g))
    && (g.state == XOF_ACCEPT || g.state == WAIT_WORD ==>
          g.buf == 0 && g.bits == 0 && g.coeffCnt == 0 && s.popped == 0 && Requested(s, transposed))
    && (g.state == WAIT_WORD ==> s.n == 0)
    && (Sampling(g.state) ==>
          Requested(s, transposed) && BufferOk(words, s) && g.coeffCnt == Min(256, |Acc(words, s)|) && g.bits <= 75)
    && (g.state == NEED_WORD ==> g.bits < 12 && g.coeffCnt < 256)
    && (g.state == NEXT_POLY ==> g.coeffCnt == 256)
  }

  function Stream(s: System): seq<int>
    requires FifoOk(s.fifo)
  {
    s.delivered + Contents(s.fifo) + Pending(s.gm)
  }

  predicate Room(s: System) {
    FifoOk(s.fifo) && WritesOk(s.gm) && s.fifo.count + PushCount(s.gm) <= 8
  }

  predicate Inv(words: Words, s: System, transposed: bool) {
    && Room(s) && FinishedAll(words, s, transposed) && Phase(words, s, transposed)
    && Stream(s) == Flat(words, s.finished) + Current(words, s)
  }

  predicate Steady(e: Env, transposed: bool) {
    !e.start && e.transposed == transposed
  }

  // ----- Every cycle keeps it -----

  lemma RoomStep(words: Words, s: System, e: Env)
    requires Room(s)
    ensures Room(Cycle(s, words, e)) && Stream(Cycle(s, words, e)) == Stream(s) + Pending(Cycle(s, words, e).gm)
  {
    hide FifoTick, Contents, Pending, Two, FifoOk, Offered;
    var t := Cycle(s, words, e);
    FifoStep(s.fifo, s.gm, e.pairReady);
    PushAfter(s.gm, PinsOf(s, words, e));
    FifoSpace(s.fifo, s.gm, e.pairReady, PushCount(t.gm));
    var k := PopCount(s.fifo, e.pairReady);
    assert Contents(s.fifo)[..k] + Contents(s.fifo)[k..] == Contents(s.fifo);
  }

  // The output registers fill only in GM_REJECT, and only when ready is high
  lemma PushAfter(g: Gm, p: Pins)
    ensures WritesOk(Tick(g, p)) && (PushCount(Tick(g, p)) > 0 ==> p.coeffReady)
    ensures g.state != REJECT ==> Pending(Tick(g, p)) == []
  {
    hide Two;
  }

  lemma AcceptedTwice(n: nat, c: nat)
    ensures var b := n / Two(12 * c);
      && b % 4096 == Candidate(n, c) && b / 4096 % 4096 == Candidate(n, c + 1)
      && b / 4096 / 4096 == n / Two(12 * (c + 2))
      && Accepted(n, c + 2) == Accepted(n, c) + Taken(b % 4096) + Taken(b / 4096 % 4096)
  {
    hide Two, Candidate, Taken;
    PopOne(n, c);
    PopOne(n, c + 1);
    AcceptedNext(n, c);
    AcceptedNext(n, c + 1);
    assert c + 1 + 1 == c + 2;
  }

  // Two candidates at a time: the same values, in the same order, cut off at 256
  // What two candidates do to the registers
  lemma PairFields(g: Gm)
    requires g.bits >= 24 && g.coeffCnt < 256
    ensures var h, ps := RejectPair(Quiet(g)), Taken(Candidate0(g)) + Taken(Candidate1(g));
      && h.buf == BehindPair(g) && h.bits == g.bits - 24 && h.coeffCnt == Min(256, g.coeffCnt + |ps|)
      && Pending(h) == ps[..h.coeffCnt - g.coeffCnt]
      && h.reqX == g.reqX && h.reqY == g.reqY && h.loopI == g.loopI && h.loopJ == g.loopJ && h.state == g.state
  {
    hide Candidate0, Candidate1, Put, BehindPair;
    SameCandidates(g);
    var cnt := g.coeffCnt;
    SmallRemainder(cnt + 1, 512);
    SmallRemainder(cnt + 2, 512);
    if Candidate0(g) < Q {
      PutFields(Quiet(g), cnt, Candidate0(g));
      if Candidate1(g) < Q && cnt != 255 {
        PutFields(Quiet(g), cnt + 1, Candidate1(g));
      }
    } else if Candidate1(g) < Q {
      PutFields(Quiet(g), cnt, Candidate1(g));
    }
  }

  lemma PutFields(g: Gm, cnt: nat, v: int)
    ensures Put(g, cnt, v).we && Put(g, cnt, v).dout == v
  {
  }

  lemma SameCandidates(g: Gm)
    ensures Candidate0(Quiet(g)) == Candidate0(g) && Candidate1(Quiet(g)) == Candidate1(g)
    ensures BehindPair(Quiet(g)) == BehindPair(g)
  {
  }

  lemma PrefixMore(a: seq<int>, ps: seq<int>, n: nat)
    requires |a| <= n <= |a| + |ps|
    ensures (a + ps)[..n] == a + ps[..n - |a|]
  {
  }

  lemma {:induction false} PairStep(words: Words, s: System, t: System)
    requires BufferOk(words, s) && 24 <= s.gm.bits && s.gm.coeffCnt == |Acc(words, s)| < 256
    requires t.gm == RejectPair(Quiet(s.gm)) && t.n == s.n && t.popped == s.popped + 2
    ensures BufferOk(words, t) && t.gm.bits == s.gm.bits - 24 && t.gm.coeffCnt == Min(256, |Acc(words, t)|)
    ensures Acc(words, t)[..t.gm.coeffCnt] == Acc(words, s) + Pending(t.gm)
    ensures t.gm.reqX == s.gm.reqX && t.gm.reqY == s.gm.reqY && t.gm.loopI == s.gm.loopI && t.gm.loopJ == s.gm.loopJ
    ensures t.gm.state == s.gm.state
  {
    hide Two, Candidate, StreamBits, Accepted, Taken, RejectPair, Quiet, Pending;
    var g := s.gm;
    PairFields(g);
    AcceptedTwice(StreamBits(words, g.reqX, g.reqY, s.n), s.popped);
    var ps := Taken(Candidate0(g)) + Taken(Candidate1(g));
    assert Acc(words, t) == Acc(words, s) + ps;
    PrefixMore(Acc(words, s), ps, t.gm.coeffCnt);
  }

  lemma {:induction false} OneStep(words: Words, s: System, t: System)
    requires BufferOk(words, s) && 12 <= s.gm.bits < 24 && s.gm.coeffCnt == |Acc(words, s)| < 256
    requires t.gm == RejectOne(Quiet(s.gm)) && t.n == s.n && t.popped == s.popped + 1
    ensures BufferOk(words, t) && t.gm.bits == s.gm.bits - 12 && t.gm.coeffCnt == Min(256, |Acc(words, t)|)
    ensures Acc(words, t)[..t.gm.coeffCnt] == Acc(words, s) + Pending(t.gm)
    ensures t.gm.reqX == s.gm.reqX && t.gm.reqY == s.gm.reqY && t.gm.loopI == s.gm.loopI && t.gm.loopJ == s.gm.loopJ
    ensures t.gm.state == s.gm.state
  {
    hide Two, Candidate, StreamBits, Accepted;
    PopOne(StreamBits(words, s.gm.reqX, s.gm.reqY, s.n), s.popped);
    AcceptedNext(StreamBits(words, s.gm.reqX, s.gm.reqY, s.n), s.popped);
  }

  // What remains to be shown of one cycle once the FIFO is accounted for
  predicate PhaseSteps(words: Words, s: System, t: System, transposed: bool)
    requires FinishedAll(words, s, transposed)
  {
    && FinishedAll(words, t, transposed) && Phase(words, t, transposed)
    && Flat(words, t.finished) + Current(words, t) == Flat(words, s.finished) + Current(words, s) + Pending(t.gm)
  }

  lemma QuietPending(g: Gm)
    requires !g.a.we && !g.b.we
    ensures Pending(g) == []
  {
  }

  // A step that adds p to the current entry and touches no finished one
  lemma SameFinished(words: Words, s: System, t: System, transposed: bool)
    requires FinishedAll(words, s, transposed) && t.finished == s.finished && Phase(words, t, transposed)
    requires Current(words, t) == Current(words, s) + Pending(t.gm)
    ensures PhaseSteps(words, s, t, transposed)
  {
    hide FinishedOk, Flat, Phase, Current, Pending;
  }

  function Quiet(g: Gm): Gm {
    g.(a := g.a.(we := false), b := g.b.(we := false), reqValid := false, release := false)
  }

  predicate Rejecting(words: Words, s: System, transposed: bool) {
    FinishedAll(words, s, transposed) && Phase(words, s, transposed) && s.gm.state == REJECT
  }

  lemma RejectFull(words: Words, s: System, t: System, transposed: bool)
    requires Rejecting(words, s, transposed) && s.gm.coeffCnt == 256
    requires t.gm == Quiet(s.gm).(state := NEXT_POLY) && t.n == s.n && t.popped == s.popped && t.finished == s.finished
    ensures PhaseSteps(words, s, t, transposed)
  {
    hide Two, Accepted, StreamBits, FinishedAll, Pending;
    QuietPending(t.gm);
    SameFinished(words, s, t, transposed);
  }

  lemma RejectWaits(words: Words, s: System, t: System, transposed: bool)
    requires Rejecting(words, s, transposed) && s.gm.coeffCnt != 256
    requires t.gm == Quiet(s.gm) || (s.gm.bits < 12 && t.gm == Quiet(s.gm).(state := NEED_WORD))
    requires t.n == s.n && t.popped == s.popped && t.finished == s.finished
    ensures PhaseSteps(words, s, t, transposed)
  {
    hide Two, Accepted, StreamBits, FinishedAll, Pending;
    QuietPending(t.gm);
    SameFinished(words, s, t, transposed);
  }

  lemma RejectPops(words: Words, s: System, t: System, transposed: bool)
    requires Rejecting(words, s, transposed) && s.gm.coeffCnt != 256 && s.gm.bits >= 12
    requires t.gm == (if s.gm.bits >= 24 then RejectPair(Quiet(s.gm)) else RejectOne(Quiet(s.gm)))
    requires t.n == s.n && t.popped == s.popped + (if s.gm.bits >= 24 then 2 else 1) && t.finished == s.finished
    ensures PhaseSteps(words, s, t, transposed)
  {
    hide Two, Candidate, StreamBits, Accepted, FinishedAll, RejectPair, RejectOne, Pending, BufferOk;
    if s.gm.bits >= 24 {
      PairStep(words, s, t);
    } else {
      OneStep(words, s, t);
    }
    SameFinished(words, s, t, transposed);
  }

  lemma {:induction false} RejectCycle(words: Words, s: System, e: Env, transposed: bool)
    requires Rejecting(words, s, transposed)
    ensures PhaseSteps(words, s, Cycle(s, words, e), transposed)
  {
    hide Two, FifoTick, RejectPair, RejectOne, Phase, FinishedAll, PhaseSteps, CoeffReady, PopCount, Offered;
    var p, t := PinsOf(s, words, e), Cycle(s, words, e);
    if s.gm.coeffCnt == 256 {
      RejectFull(words, s, t, transposed);
    } else if !p.coeffReady || s.gm.bits < 12 {
      RejectWaits(words, s, t, transposed);
    } else {
      RejectPops(words, s, t, transposed);
    }
  }

  // Waiting for the XOF: nothing is put out
  lemma RequestCycle(words: Words, s: System, e: Env, transposed: bool)
    requires FinishedAll(words, s, transposed) && Phase(words, s, transposed) && Steady(e, transposed)
    requires s.gm.state == IDLE || s.gm.state == XOF_INIT || s.gm.state == XOF_ACCEPT || s.gm.state == DONE
    ensures PhaseSteps(words, s, Cycle(s, words, e), transposed)
  {
    hide Two, FifoTick, FinishedAll, PhaseSteps, CoeffReady, PopCount, Offered, Pending, Accepted, StreamBits,
      BufferOk;
    var t := Cycle(s, words, e);
    QuietPending(t.gm);
    SameFinished(words, s, t, transposed);
  }

  lemma EmptyBuffer(words: Words, s: System)
    requires s.gm.buf == 0 && s.gm.bits == 0 && s.popped == 0 && s.n == 0
    ensures BufferOk(words, s) && Acc(words, s) == []
  {
  }

  lemma FirstWordCycle(words: Words, s: System, e: Env, transposed: bool)
    requires FinishedAll(words, s, transposed) && Phase(words, s, transposed) && s.gm.state == WAIT_WORD
    ensures PhaseSteps(words, s, Cycle(s, words, e), transposed)
  {
    hide Two, FifoTick, FinishedAll, PhaseSteps, CoeffReady, PopCount, Offered, Pending, Acc, BufferOk;
    var t := Cycle(s, words, e);
    QuietPending(t.gm);
    EmptyBuffer(words, t);
    SameFinished(words, s, t, transposed);
  }

  // A word arrives: the values accepted so far stay the same
  lemma WordAccepted(words: Words, s: System, t: System)
    requires WordsOk(words) && BufferOk(words, s) && s.gm.bits < 12
    requires t.n == s.n + 1 && t.popped == s.popped && t.gm.reqX == s.gm.reqX && t.gm.reqY == s.gm.reqY
    requires t.gm.buf == (s.gm.buf + words(s.gm.reqX, s.gm.reqY, s.n) * Two(s.gm.bits)) % Two(128)
    requires t.gm.bits == s.gm.bits + 64
    ensures BufferOk(words, t) && Acc(words, t) == Acc(words, s)
  {
    hide Two, StreamBits, Continues, Accepted;
    var w := words(s.gm.reqX, s.gm.reqY, s.n);
    TakeWord(words, s, w);
    MulNonNeg(w, Two(s.gm.bits));
    SmallRemainder(s.gm.buf + w * Two(s.gm.bits), Two(128));
    StreamContinues(words, s.gm.reqX, s.gm.reqY, s.n);
    AcceptedStable(StreamBits(words, s.gm.reqX, s.gm.reqY, s.n), StreamBits(words, s.gm.reqX, s.gm.reqY, s.n + 1),
                   64 * s.n, s.popped);
  }

  lemma WordCycle(words: Words, s: System, e: Env, transposed: bool)
    requires WordsOk(words) && FinishedAll(words, s, transposed) && Phase(words, s, transposed)
        && s.gm.state == NEED_WORD
    ensures PhaseSteps(words, s, Cycle(s, words, e), transposed)
  {
    hide Two, FifoTick, FinishedAll, PhaseSteps, CoeffReady, PopCount, Offered, Pending, Accepted, StreamBits,
      BufferOk;
    var t := Cycle(s, words, e);
    QuietPending(t.gm);
    if e.wordValid {
      WordAccepted(words, s, t);
    } else {
      SameBuffer(words, s, t);
    }
    SameFinished(words, s, t, transposed);
  }

  lemma SameBuffer(words: Words, s: System, t: System)
    requires BufferOk(words, s) && t.n == s.n && t.popped == s.popped && t.gm.reqX == s.gm.reqX
        && t.gm.reqY == s.gm.reqY
    requires t.gm.buf == s.gm.buf && t.gm.bits == s.gm.bits
    ensures BufferOk(words, t) && Acc(words, t) == Acc(words, s)
  {
    hide Two, StreamBits, Accepted;
  }

  // The entry that has 256 values is finished
  lemma FinishedMore(words: Words, s: System, t: System, f: Finished, transposed: bool)
    requires FinishedAll(words, s, transposed) && t.finished == s.finished + [f] && FinishedOk(words, f)
    requires f.x == OrderX(|s.finished|, transposed) && f.y == OrderY(|s.finished|, transposed)
    ensures FinishedAll(words, t, transposed)
    ensures Flat(words, t.finished) == Flat(words, s.finished) + EntryValues(words, f)
  {
    hide FinishedOk;
    assert t.finished[..|t.finished| - 1] == s.finished;
    assert forall g :: g in t.finished ==> g in s.finished || g == f;
  }

  lemma NextCycle(words: Words, s: System, e: Env, transposed: bool)
    requires FinishedAll(words, s, transposed) && Phase(words, s, transposed) && s.gm.state == NEXT_POLY
    ensures PhaseSteps(words, s, Cycle(s, words, e), transposed)
  {
    hide Two, FifoTick, FinishedAll, CoeffReady, PopCount, Offered, Pending, Accepted, StreamBits, Flat;
    var t := Cycle(s, words, e);
    QuietPending(t.gm);
    FinishedMore(words, s, t, Finished(s.gm.reqX, s.gm.reqY, s.n, s.popped), transposed);
  }

  lemma PhaseCycle(words: Words, s: System, e: Env, transposed: bool)
    requires WordsOk(words) && FinishedAll(words, s, transposed) && Phase(words, s, transposed) && Steady(e, transposed)
    ensures PhaseSteps(words, s, Cycle(s, words, e), transposed)
  {
    hide Phase, FinishedAll, Cycle, PhaseSteps;
    match s.gm.state
    case REJECT => RejectCycle(words, s, e, transposed);
    case NEED_WORD => WordCycle(words, s, e, transposed);
    case WAIT_WORD => FirstWordCycle(words, s, e, transposed);
    case NEXT_POLY => NextCycle(words, s, e, transposed);
    case _ => RequestCycle(words, s, e, transposed);
  }

  lemma InvStep(words: Words, s: System, e: Env, transposed: bool)
    requires WordsOk(words) && Inv(words, s, transposed) && Steady(e, transposed)
    ensures Inv(words, Cycle(s, words, e), transposed)
  {
    hide Phase, FinishedAll, Cycle, Room, Stream, Current, Flat, Pending;
    PhaseCycle(words, s, e, transposed);
    RoomStep(words, s, e);
  }

  // ----- Whole runs -----

  function Run(s: System, words: Words, es: seq<Env>): System {
    if es == [] then s else Cycle(Run(s, words, es[..|es| - 1]), words, es[|es| - 1])
  }

  // Just started, FIFO empty
  predicate Started(s: System) {
    && s.gm.state == XOF_INIT && s.gm.loopI == 0 && s.gm.loopJ == 0 && !s.gm.a.we && !s.gm.b.we
    && s.fifo.count == 0 && s.fifo.rd < 8 && s.fifo.wr == s.fifo.rd && s.finished == [] && s.delivered == []
  }

  lemma {:induction false} RunKeeps(s: System, words: Words, es: seq<Env>, transposed: bool)
    requires WordsOk(words) && Started(s) && forall i :: 0 <= i < |es| ==> Steady(es[i], transposed)
    ensures Inv(words, Run(s, words, es), transposed)
  {
    hide Cycle, Inv, Steady;
    if es == [] {
      StartedInv(words, s, transposed);
    } else {
      RunKeeps(s, words, es[..|es| - 1], transposed);
      InvStep(words, Run(s, words, es[..|es| - 1]), es[|es| - 1], transposed);
    }
  }

  lemma StartedInv(words: Words, s: System, transposed: bool)
    requires Started(s)
    ensures Inv(words, s, transposed)
  {
  }

  // At every point of every run: at most eight coefficients queued, and what the consumer has, what
  // is queued and what is being written are together the finished entries and a prefix of the next
  lemma {:induction false} RunDelivers(s: System, words: Words, es: seq<Env>, transposed: bool)
    requires WordsOk(words) && Started(s) && forall i :: 0 <= i < |es| ==> Steady(es[i], transposed)
    ensures var t := Run(s, words, es);
      && FifoOk(t.fifo) && t.fifo.count <= 8 && FinishedAll(words, t, transposed)
      && t.delivered + Contents(t.fifo) + Pending(t.gm) == Flat(words, t.finished) + Current(words, t)
      && |Current(words, t)| <= 256 && Current(words, t) <= Acc(words, t)
      && (t.gm.state == IDLE || t.gm.state == DONE ==> |t.finished| == 4 && Current(words, t) == [])
  {
    hide Run, Flat, Accepted, StreamBits, FinishedOk, Two;
    RunKeeps(s, words, es, transposed);
  }

  // ----- The same matrix as gen_matrix -----

  // The words are the XOF bytes, eight at a time
  ghost predicate SameStream(words: Words, xof: (nat, nat, nat) -> seq<Byte>)
    requires forall x, y, i :: |xof(x, y, i)| == XOF_BLOCKBYTES
  {
    forall x: nat, y: nat, n: nat, m: nat :: 8 * n <= |Blocks(StreamOf(xof, x, y), m)| ==>
      StreamBits(words, x, y, n) == ValueOf(Blocks(StreamOf(xof, x, y), m)[..8 * n])
  }

  lemma {:induction false} EntryIsReference(words: Words, xof: (nat, nat, nat) -> seq<Byte>, limit: nat, f: Finished)
    requires XofOk(xof, limit) && SameStream(words, xof) && FinishedOk(words, f) && f.x < 2 && f.y < 2
    ensures EntryValues(words, f) == EntryOf(xof, limit, f.x, f.y)
  {
    hide Accepted, ValueOf, Blocks, Continues, StreamBits;
    var xs := StreamOf(xof, f.x, f.y);
    var m := limit + f.n;
    var b := Blocks(xs, m);
    var a := b[..8 * f.n];
    assert a + b[8 * f.n..] == b;
    ValueContinues(a, b[8 * f.n..]);
    AcceptedStable(ValueOf(a), ValueOf(b), 8 * |a|, f.popped);
    EnoughCandidates(m, f.n, f.popped);
    AcceptedGrows(ValueOf(b), f.popped, 2 * (|b| / 3));
    SameEntry(xs, m, limit);
  }

  lemma EnoughCandidates(m: nat, n: nat, c: nat)
    requires 12 * c <= 64 * n && n <= m
    ensures c <= 2 * (XOF_BLOCKBYTES * m / 3)
  {
    assert XOF_BLOCKBYTES * m / 3 == 56 * m;
  }

  // Entry k of the matrix in row order, which is the order of the controller
  ghost function MatrixEntry(xof: (nat, nat, nat) -> seq<Byte>, limit: nat, transposed: bool, k: nat): seq<int>
    requires XofOk(xof, limit) && k < 4
  {
    var (x, y) := EntryIndex(k / 2, k % 2, transposed);
    EntryOf(xof, limit, x, y)
  }

  // When the sampler is done, exactly the four entries of gen_matrix have been put out, in order
  lemma {:induction false} RunIsGenMatrix(s: System, words: Words, es: seq<Env>, transposed: bool,
                                          xof: (nat, nat, nat) -> seq<Byte>, limit: nat)
    requires WordsOk(words) && Started(s) && forall i :: 0 <= i < |es| ==> Steady(es[i], transposed)
    requires XofOk(xof, limit) && SameStream(words, xof)
    requires Run(s, words, es).gm.state == DONE || Run(s, words, es).gm.state == IDLE
    ensures var t := Run(s, words, es);
      FifoOk(t.fifo) && t.delivered + Contents(t.fifo) + Pending(t.gm)
      == MatrixEntry(xof, limit, transposed, 0) + MatrixEntry(xof, limit, transposed, 1)
       + MatrixEntry(xof, limit, transposed, 2) + MatrixEntry(xof, limit, transposed, 3)
  {
    hide Run, Accepted, StreamBits, FinishedOk, Two, EntryValues, EntryOf, XofOk, SameStream;
    var t := Run(s, words, es);
    RunDelivers(s, words, es, transposed);
    FlatFour(words, t.finished);
    forall k | 0 <= k < 4 ensures EntryValues(words, t.finished[k]) == MatrixEntry(xof, limit, transposed, k) {
      assert t.finished[k] in t.finished;
      EntryIsReference(words, xof, limit, t.finished[k]);
    }
  }

  lemma FlatPush(words: Words, fs: seq<Finished>, f: Finished)
    requires FinishedOk(words, f) && forall g :: g in fs ==> FinishedOk(words, g)
    ensures forall g :: g in fs + [f] ==> FinishedOk(words, g)
    ensures Flat(words, fs + [f]) == Flat(words, fs) + EntryValues(words, f)
  {
    hide FinishedOk, EntryValues;
    assert (fs + [f])[..|fs|] == fs;
  }

  lemma FlatFour(words: Words, fs: seq<Finished>)
    requires |fs| == 4 && forall f :: f in fs ==> FinishedOk(words, f)
    ensures FinishedOk(words, fs[0]) && FinishedOk(words, fs[1]) && FinishedOk(words, fs[2]) && FinishedOk(words, fs[3])
    ensures Flat(words, fs) == EntryValues(words, fs[0]) + EntryValues(words, fs[1]) + EntryValues(words, fs[2])
                             + EntryValues(words, fs[3])
  {
    hide FinishedOk, EntryValues, Flat;
    FlatNone(words);
    FlatPush(words, [], fs[0]);
    FlatPush(words, [fs[0]], fs[1]);
    FlatPush(words, [fs[0], fs[1]], fs[2]);
    FlatPush(words, [fs[0], fs[1], fs[2]], fs[3]);
    assert [] + [fs[0]] == [fs[0]] && [fs[0]] + [fs[1]] == [fs[0], fs[1]];
    assert [fs[0], fs[1]] + [fs[2]] == [fs[0], fs[1], fs[2]] && [fs[0], fs[1], fs[2]] + [fs[3]] == fs;
  }

  lemma FlatNone(words: Words)
    ensures Flat(words, []) == []
  {
  }
}
