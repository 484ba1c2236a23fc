/** The matrix sampler never stops by itself: it waits only for a request to be accepted, for a word,
    or for a consumer that leaves the FIFO full. If the streams hold enough accepted values it
    finishes the matrix within a fixed number of other cycles, and the consumer receives all of it. */
module RtlSamplerProgress {
  import opened Zetas
  import opened Codecs
  import opened RejSample
  import opened RtlSampler
  import opened RtlSamplerProof

  // ----- Enough words -----

  // Whole candidates in n words
  function Candidates(n: nat): nat {
    64 * n / 12
  }

  // The first words of each stream hold 256 accepted values
  ghost predicate Enough(words: Words, limit: nat) {
    forall x: nat, y: nat :: x < 2 && y < 2 ==>
      |Accepted(StreamBits(words, x, y, limit), Candidates(limit))| >= 256
  }

  // Later words do not change earlier candidates
  lemma {:induction false} LaterWords(words: Words, x: nat, y: nat, n: nat, m: nat, c: nat)
    requires WordsOk(words) && n <= m && 12 * c <= 64 * n
    ensures Accepted(StreamBits(words, x, y, n), c) == Accepted(StreamBits(words, x, y, m), c)
    decreases m - n
  {
    hide Accepted, StreamBits, Continues;
    if n < m {
      StreamContinues(words, x, y, n);
      AcceptedStable(StreamBits(words, x, y, n), StreamBits(words, x, y, n + 1), 64 * n, c);
      LaterWords(words, x, y, n + 1, m, c);
    }
  }

  lemma CandidatesBound(n: nat)
    ensures 12 * Candidates(n) <= 64 * n
  {
  }

  lemma CandidatesTaken(n: nat, m: nat, popped: nat, bits: nat)
    requires n <= m && 12 * popped + bits == 64 * m && bits < 12
    ensures Candidates(n) <= popped
  {
  }

  // An entry that still needs a word has not used up its allowance
  lemma {:induction false} NeedsWord(words: Words, s: System, limit: nat)
    requires WordsOk(words) && Enough(words, limit) && BufferOk(words, s) && s.gm.bits < 12 && |Acc(words, s)| < 256
    requires s.gm.reqX < 2 && s.gm.reqY < 2
    ensures s.n < limit
  {
    hide Accepted, StreamBits, Candidates, Two;
    if limit <= s.n {
      var x, y, c := s.gm.reqX, s.gm.reqY, Candidates(limit);
      CandidatesBound(limit);
      CandidatesTaken(limit, s.n, s.popped, s.gm.bits);
      LaterWords(words, x, y, limit, s.n, c);
      AcceptedGrows(StreamBits(words, x, y, s.n), c, s.popped);
    }
  }

  // ----- Rank -----

  // The entry's words stay within the allowance, and the output registers empty at the end
  predicate InLimit(s: System, limit: nat) {
    && (Sampling(s.gm.state) ==> s.n <= limit)
    && (s.gm.state == IDLE || s.gm.state == DONE ==> PushCount(s.gm) == 0)
  }

  // Cycles of one whole entry
  function Entry(limit: nat): nat {
    14 * limit + 5
  }

  function Ahead(e: nat, t: nat): nat {
    if e == 0 then 3 * t else if e == 1 then 2 * t else if e == 2 then t else 0
  }

  // Two for each candidate and each word that may still be looked at
  function Rest(s: System, limit: nat): int {
    2 * (6 * limit - s.popped) + 2 * (limit - s.n)
  }

  function Rank(s: System, limit: nat): int {
    var a := Ahead(Index(s.gm), Entry(limit)) + 2;
    match s.gm.state
    case XOF_INIT => a + 14 * limit + 3
    case XOF_ACCEPT => a + 14 * limit + 2
    case WAIT_WORD => a + 14 * limit + 1
    case REJECT => a + Rest(s, limit) + 1
    case NEED_WORD => a + Rest(s, limit)
    case NEXT_POLY => a
    case DONE => 1
    case IDLE => 0
  }

  // Coefficients on their way to the consumer
  function Queued(s: System): nat {
    s.fifo.count + PushCount(s.gm)
  }

  predicate Waits(s: System, e: Env) {
    || (s.gm.state == XOF_ACCEPT && !e.reqReady)
    || (s.gm.state == NEED_WORD && !e.wordValid)
    || (s.gm.state == REJECT && !CoeffReady(s.fifo, e.pairReady) && !e.pairReady)
  }

  lemma QueueStep(words: Words, s: System, e: Env)
    requires Room(s)
    ensures Queued(Cycle(s, words, e)) == Queued(s) - PopCount(s.fifo, e.pairReady) + PushCount(Cycle(s, words, e).gm)
  {
    hide FifoTick, FifoOk, Two, Offered, PinsOf, Tick;
    FifoShape(s.fifo, s.gm, e.pairReady);
  }

  lemma RestBound(words: Words, s: System, limit: nat)
    requires BufferOk(words, s) && s.n <= limit
    ensures Rest(s, limit) >= 0
  {
    hide StreamBits, Two;
  }

  // What one edge does to the counters, outside GM_REJECT
  lemma {:induction false} OtherEdge(words: Words, s: System, e: Env, transposed: bool, limit: nat)
    requires WordsOk(words) && Enough(words, limit) && Inv(words, s, transposed) && InLimit(s, limit)
        && Steady(e, transposed)
    requires s.gm.state != REJECT && s.gm.state != NEXT_POLY
    ensures var t := Cycle(s, words, e);
      && InLimit(t, limit) && PushCount(t.gm) == 0
      && (s.gm.state == IDLE ==> t.gm.state == IDLE)
      && (Waits(s, e) ==> Rank(t, limit) == Rank(s, limit))
      && (!Waits(s, e) ==> s.gm.state == IDLE || Rank(t, limit) < Rank(s, limit))
  {
    hide Two, FifoTick, Accepted, StreamBits, Offered, FinishedAll, Room, Stream, Current, Flat, Contents, Pending,
      BufferOk, Enough, Ahead;
    if s.gm.state == NEED_WORD {
      NeedFacts(words, s, transposed);
      NeedsWord(words, s, limit);
    }
  }

  lemma NeedFacts(words: Words, s: System, transposed: bool)
    requires Inv(words, s, transposed) && s.gm.state == NEED_WORD
    ensures BufferOk(words, s) && s.gm.bits < 12 && |Acc(words, s)| < 256 && s.gm.reqX < 2 && s.gm.reqY < 2
  {
    hide Accepted, StreamBits, Two, FinishedAll, Room, Stream, Current, Flat, Contents, Pending;
  }

  lemma {:induction false} NextEdge(words: Words, s: System, e: Env, transposed: bool, limit: nat)
    requires Inv(words, s, transposed) && InLimit(s, limit) && s.gm.state == NEXT_POLY
    ensures var t := Cycle(s, words, e);
      InLimit(t, limit) && PushCount(t.gm) == 0 && Rank(t, limit) < Rank(s, limit)
  {
    hide Two, FifoTick, Accepted, StreamBits, Offered, FinishedAll, Room, Stream, Current, Flat, Contents, Pending,
      BufferOk, Rest;
  }

  // GM_REJECT: candidates are looked at, or the entry moves on, or a full FIFO drains
  lemma {:induction false} RejectEdge(words: Words, s: System, e: Env, transposed: bool, limit: nat)
    requires Inv(words, s, transposed) && InLimit(s, limit) && s.gm.state == REJECT
    ensures var t := Cycle(s, words, e);
      && InLimit(t, limit)
      && Rank(t, limit) + PushCount(t.gm) <= Rank(s, limit)
      && (!Waits(s, e) && CoeffReady(s.fifo, e.pairReady) ==> Rank(t, limit) + PushCount(t.gm) < Rank(s, limit))
      && (!Waits(s, e) && !CoeffReady(s.fifo, e.pairReady) ==>
            Rank(t, limit) + PushCount(t.gm) < Rank(s, limit) || PopCount(s.fifo, e.pairReady) == 2)
  {
    hide Two, FifoTick, Accepted, StreamBits, Offered, FinishedAll, Room, Stream, Current, Flat, Contents, Pending,
      BufferOk, Ahead;
    RejectBuffer(words, s, transposed);
    RestBound(words, s, limit);
  }

  lemma RejectBuffer(words: Words, s: System, transposed: bool)
    requires Inv(words, s, transposed) && s.gm.state == REJECT
    ensures BufferOk(words, s)
  {
    hide Accepted, StreamBits, Two, FinishedAll, Room, Stream, Current, Flat, Contents, Pending, BufferOk;
  }

  // ----- Runs -----

  // Besides the waits of the sampler: nobody takes the last coefficients
  predicate Stuck(s: System, e: Env) {
    Waits(s, e) || (s.gm.state == IDLE && PairValid(s.fifo) && !e.pairReady)
  }

  predicate Over(s: System) {
    s.gm.state == IDLE && s.fifo.count < 2
  }

  function Measure(s: System, limit: nat): int {
    Rank(s, limit) + Queued(s)
  }

  lemma {:induction false} EdgeEffect(words: Words, s: System, e: Env, transposed: bool, limit: nat)
    requires WordsOk(words) && Enough(words, limit) && Inv(words, s, transposed) && InLimit(s, limit)
        && Steady(e, transposed)
    ensures var t := Cycle(s, words, e);
      && InLimit(t, limit) && (Over(s) ==> Over(t))
      && Measure(t, limit) <= Measure(s, limit) - (if Stuck(s, e) || Over(s) then 0 else 1)
  {
    hide WordsOk, Enough, Inv, InLimit, Steady, Cycle, Rank, Waits, CoeffReady;
    InvRoom(words, s, transposed);
    QueueStep(words, s, e);
    PopsPair(s.fifo, e.pairReady);
    if s.gm.state == REJECT {
      RejectEdge(words, s, e, transposed, limit);
    } else if s.gm.state == NEXT_POLY {
      NextEdge(words, s, e, transposed, limit);
      WaitsNowhere(s, e);
    } else {
      OtherEdge(words, s, e, transposed, limit);
      if s.gm.state == IDLE {
        IdleRank(s, limit);
        IdleRank(Cycle(s, words, e), limit);
        CountAfter(words, s, e);
        WaitsNowhere(s, e);
      }
    }
  }

  lemma InvRoom(words: Words, s: System, transposed: bool)
    requires Inv(words, s, transposed)
    ensures Room(s)
  {
    hide Phase, FinishedAll, Room, Stream, Current, Flat;
  }

  lemma PopsPair(f: Fifo, pairReady: bool)
    ensures PopCount(f, pairReady) == if f.count >= 2 && pairReady then 2 else 0
  {
  }

  lemma WaitsNowhere(s: System, e: Env)
    ensures s.gm.state == NEXT_POLY || s.gm.state == IDLE ==> !Waits(s, e)
  {
  }

  lemma IdleRank(s: System, limit: nat)
    requires s.gm.state == IDLE
    ensures Rank(s, limit) == 0 && (InLimit(s, limit) ==> PushCount(s.gm) == 0)
  {
  }

  lemma CountAfter(words: Words, s: System, e: Env)
    requires Room(s)
    ensures Cycle(s, words, e).fifo.count <= Queued(s)
  {
    hide FifoTick, FifoOk, Two, Offered, PinsOf, Tick;
    FifoShape(s.fifo, s.gm, e.pairReady);
  }

  // Cycles that are not stuck
  function Moves(s: System, words: Words, es: seq<Env>): nat {
    if es == [] then 0
    else Moves(s, words, es[..|es| - 1]) + if Stuck(Run(s, words, es[..|es| - 1]), es[|es| - 1]) then 0 else 1
  }

  function Budget(limit: nat): nat {
    56 * limit + 20
  }

  lemma StartMeasure(s: System, limit: nat)
    requires Started(s)
    ensures InLimit(s, limit) && Measure(s, limit) == Budget(limit) && !Over(s)
  {
  }

  lemma {:induction false} MovesBound(s: System, words: Words, es: seq<Env>, transposed: bool, limit: nat)
    requires WordsOk(words) && Enough(words, limit) && Started(s)
        && forall i :: 0 <= i < |es| ==> Steady(es[i], transposed)
    ensures var t := Run(s, words, es);
      InLimit(t, limit) && (Over(t) || Moves(s, words, es) + Measure(t, limit) <= Budget(limit))
    decreases |es|
  {
    hide Cycle, Steady, Enough, InLimit, Measure, Stuck, Over, Started;
    if es == [] {
      StartMeasure(s, limit);
    } else {
      var front, e := es[..|es| - 1], es[|es| - 1];
      MovesBound(s, words, front, transposed, limit);
      RunKeeps(s, words, front, transposed);
      EdgeEffect(words, Run(s, words, front), e, transposed, limit);
    }
  }

  // Unless everything is over something is left to do
  lemma {:induction false} MeasurePositive(words: Words, s: System, transposed: bool, limit: nat)
    requires Inv(words, s, transposed) && InLimit(s, limit) && !Over(s)
    ensures Measure(s, limit) >= 1
  {
    hide Two, Accepted, StreamBits, FinishedAll, Room, Stream, Current, Flat, BufferOk, Ahead, Rest;
    if s.gm.state == REJECT || s.gm.state == NEED_WORD {
      SamplingBuffer(words, s, transposed);
      RestBound(words, s, limit);
    }
  }

  lemma SamplingBuffer(words: Words, s: System, transposed: bool)
    requires Inv(words, s, transposed) && (s.gm.state == REJECT || s.gm.state == NEED_WORD)
    ensures BufferOk(words, s)
  {
    hide Accepted, StreamBits, Two, FinishedAll, Room, Stream, Current, Flat, BufferOk;
  }

  // ----- The whole matrix is delivered -----

  // Coefficients leave in pairs
  lemma {:induction false} PairsDelivered(s: System, words: Words, es: seq<Env>)
    requires Started(s)
    ensures |Run(s, words, es).delivered| % 2 == 0
    decreases |es|
  {
    hide Tick, FifoTick, PopCount;
    if es != [] {
      PairsDelivered(s, words, es[..|es| - 1]);
    }
  }

  lemma {:induction false} BlockWords(words: Words, x: nat, y: nat, b: seq<Byte>, limit: nat)
    requires |b| == 168 * limit && StreamBits(words, x, y, 21 * limit) == ValueOf(b) && |AllAccepted(b)| >= 256
    ensures |Accepted(StreamBits(words, x, y, 21 * limit), Candidates(21 * limit))| >= 256
  {
    hide Accepted, ValueOf, StreamBits;
    assert Candidates(21 * limit) == 2 * (|b| / 3);
  }

  // 168-byte blocks as words
  lemma {:induction false} BlocksAreEnough(words: Words, xof: (nat, nat, nat) -> seq<Byte>, limit: nat)
    requires XofOk(xof, limit) && SameStream(words, xof)
    ensures Enough(words, 21 * limit)
  {
    hide Accepted, ValueOf, Blocks, StreamBits, AllAccepted, Candidates;
    forall x: nat, y: nat | x < 2 && y < 2
      ensures |Accepted(StreamBits(words, x, y, 21 * limit), Candidates(21 * limit))| >= 256
    {
      var b := Blocks(StreamOf(xof, x, y), limit);
      assert b[..8 * (21 * limit)] == b;
      BlockWords(words, x, y, b, limit);
    }
  }

  // When everything is over the consumer has received exactly the four entries of gen_matrix
  lemma {:induction false} OverIsMatrix(s: System, words: Words, es: seq<Env>, transposed: bool,
                                        xof: (nat, nat, nat) -> seq<Byte>, limit: nat)
    requires WordsOk(words) && Started(s) && forall i :: 0 <= i < |es| ==> Steady(es[i], transposed)
    requires XofOk(xof, limit) && SameStream(words, xof)
    requires Over(Run(s, words, es)) && InLimit(Run(s, words, es), 21 * limit)
    ensures Run(s, words, es).delivered
         == MatrixEntry(xof, limit, transposed, 0) + MatrixEntry(xof, limit, transposed, 1)
          + MatrixEntry(xof, limit, transposed, 2) + MatrixEntry(xof, limit, transposed, 3)
  {
    hide Run, XofOk, SameStream, InLimit, Steady, Started;
    var t := Run(s, words, es);
    RunIsGenMatrix(s, words, es, transposed, xof, limit);
    PairsDelivered(s, words, es);
    IdleRank(t, 21 * limit);
    NothingQueued(t.fifo, t.gm);
    LastPair(t, MatrixEntry(xof, limit, transposed, 0) + MatrixEntry(xof, limit, transposed, 1)
              + MatrixEntry(xof, limit, transposed, 2) + MatrixEntry(xof, limit, transposed, 3));
  }

  // Whatever the delays, once enough cycles have waited for nothing the sampler is back in IDLE and
  // the consumer has received exactly the four entries of gen_matrix, in order
  lemma {:induction false} MatrixFinishes(s: System, words: Words, es: seq<Env>, transposed: bool,
                                          xof: (nat, nat, nat) -> seq<Byte>, limit: nat)
    requires WordsOk(words) && Started(s) && forall i :: 0 <= i < |es| ==> Steady(es[i], transposed)
    requires XofOk(xof, limit) && SameStream(words, xof)
    requires Moves(s, words, es) >= Budget(21 * limit)
    ensures var t := Run(s, words, es);
      t.gm.state == IDLE && t.delivered
      == MatrixEntry(xof, limit, transposed, 0) + MatrixEntry(xof, limit, transposed, 1)
       + MatrixEntry(xof, limit, transposed, 2) + MatrixEntry(xof, limit, transposed, 3)
  {
    hide Run, Moves, Enough, XofOk, SameStream, Inv, InLimit, Measure, Steady, Started, Budget, MatrixEntry;
    var t := Run(s, words, es);
    BlocksAreEnough(words, xof, limit);
    MovesBound(s, words, es, transposed, 21 * limit);
    RunKeeps(s, words, es, transposed);
    if !Over(t) {
      MeasurePositive(words, t, transposed, 21 * limit);
    }
    OverIsMatrix(s, words, es, transposed, xof, limit);
  }

  lemma NothingQueued(f: Fifo, g: Gm)
    requires PushCount(g) == 0
    ensures Pending(g) == []
  {
  }

  lemma LastPair(t: System, m: seq<int>)
    requires FifoOk(t.fifo) && t.fifo.count < 2 && |t.delivered| % 2 == 0 && |m| == 1024
    requires t.delivered + Contents(t.fifo) + [] == m
    ensures t.delivered == m
  {
    assert |t.delivered| + t.fifo.count == 1024;
  }
}
