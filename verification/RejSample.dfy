/** Rejection sampling of matrix entries: the twelve-bit little-endian stream, the values below q
    in it, and the C functions rej_uniform and gen_matrix (kyber/ref/indcpa.c), which read it in
    three-byte steps from blocks (SampleNTT, Algorithm 7 of FIPS 203). */
module RejSample {
  import opened Division
  import opened ModQ
  import opened Zetas
  import opened Codecs

  // ----- The stream -----

  // Candidate k of a stream whose bits, first one lowest, are the number n
  function Candidate(n: nat, k: nat): (v: nat)
    ensures v < 4096
  {
    n / Two(12 * k) % 4096
  }

  // The candidates below q among the first c
  function Accepted(n: nat, c: nat): (r: seq<int>)
    ensures |r| <= c
  {
    if c == 0 then []
    else Accepted(n, c - 1) + (if Candidate(n, c - 1) < Q then [Candidate(n, c - 1)] else [])
  }

  lemma {:induction false} AcceptedRange(n: nat, c: nat)
    ensures forall i :: 0 <= i < |Accepted(n, c)| ==> 0 <= Accepted(n, c)[i] < Q
  {
    if c > 0 {
      AcceptedRange(n, c - 1);
    }
  }

  // Reading on only appends
  lemma {:induction false} AcceptedGrows(n: nat, c: nat, d: nat)
    requires c <= d
    ensures Accepted(n, c) <= Accepted(n, d)
  {
    if c < d {
      AcceptedGrows(n, c, d - 1);
    }
  }

  // m continues the stream n, of bits bits
  predicate Continues(n: nat, m: nat, bits: nat) {
    n < Two(bits) && m >= n && (m - n) % Two(bits) == 0
  }

  lemma ContinuesAs(n: nat, m: nat, bits: nat)
    requires Continues(n, m, bits)
    ensures m == n + (m - n) / Two(bits) * Two(bits) && (m - n) / Two(bits) >= 0
  {
  }

  lemma SplitWeight(bits: nat, k: nat)
    requires 12 * k + 12 <= bits
    ensures Two(bits) == Two(12 * k) * (4096 * Two(bits - 12 * k - 12))
  {
    hide Two;
    TwoProduct(12 * k, 12);
    TwoProduct(12 * k + 12, bits - 12 * k - 12);
    TwoTwelve();
    var d, h := Two(12 * k), Two(bits - 12 * k - 12);
    assert d * 4096 * h == d * (4096 * h);
  }

  lemma CandidateStable(n: nat, m: nat, bits: nat, k: nat)
    requires Continues(n, m, bits) && 12 * k + 12 <= bits
    ensures Candidate(n, k) == Candidate(m, k)
  {
    hide Two, Continues;
    ContinuesAs(n, m, bits);
    SplitWeight(bits, k);
    var w := (m - n) / Two(bits);
    var d, h := Two(12 * k), Two(bits - 12 * k - 12);
    Regroup(w, d, h);
    NonNegative(w, h);
    DivAdd(n, (w * h) * 4096, d);
    DivAdd(n / d, w * h, 4096);
  }

  lemma Regroup(w: nat, d: nat, h: nat)
    ensures w * (d * (4096 * h)) == ((w * h) * 4096) * d
  {
    assert d * (4096 * h) == (4096 * h) * d;
    assert w * ((4096 * h) * d) == (w * (4096 * h)) * d;
    assert w * (4096 * h) == (w * h) * 4096;
  }

  lemma TwoTwelve()
    ensures Two(12) == 4096
  {
  }

  lemma {:induction false} AcceptedStable(n: nat, m: nat, bits: nat, c: nat)
    requires Continues(n, m, bits) && 12 * c <= bits
    ensures Accepted(n, c) == Accepted(m, c)
  {
    hide Continues, Candidate, Two;
    if c > 0 {
      AcceptedStable(n, m, bits, c - 1);
      CandidateStable(n, m, bits, c - 1);
    }
  }

  // ----- Bytes -----

  // The stream a byte sequence spells, first byte lowest
  function ValueOf(b: seq<Byte>): nat {
    if b == [] then 0 else b[0] + 256 * ValueOf(b[1..])
  }

  lemma {:induction false} ValueBound(b: seq<Byte>)
    ensures ValueOf(b) < Two(8 * |b|)
  {
    if b != [] {
      ValueBound(b[1..]);
      TwoProduct(8, 8 * (|b| - 1));
      TwoEight();
    }
  }

  lemma TwoEight()
    ensures Two(8) == 256
  {
  }

  lemma {:induction false} ValueAppend(a: seq<Byte>, b: seq<Byte>)
    ensures ValueOf(a + b) == ValueOf(a) + Two(8 * |a|) * ValueOf(b)
  {
    hide Two;
    if a == [] {
      assert a + b == b;
      TwoZero();
    } else {
      ValueAppend(a[1..], b);
      assert (a + b)[1..] == a[1..] + b;
      TwoProduct(8, 8 * (|a| - 1));
      TwoEight();
      assert 256 * (Two(8 * (|a| - 1)) * ValueOf(b)) == (256 * Two(8 * (|a| - 1))) * ValueOf(b);
    }
  }

  lemma TwoZero()
    ensures Two(0) == 1
  {
  }

  lemma {:induction false} ValueContinues(a: seq<Byte>, b: seq<Byte>)
    ensures Continues(ValueOf(a), ValueOf(a + b), 8 * |a|)
  {
    hide Two, ValueOf;
    ValueBound(a);
    ValueAppend(a, b);
    DivAdd(0, ValueOf(b), Two(8 * |a|));
    assert ValueOf(b) * Two(8 * |a|) == Two(8 * |a|) * ValueOf(b);
    NonNegative(Two(8 * |a|), ValueOf(b));
  }

  lemma NonNegative(x: nat, y: nat)
    ensures x * y >= 0
  {
  }

  // Two candidates from three bytes
  function Val0(b0: Byte, b1: Byte): (v: nat) {
    (b0 + 256 * b1) % 4096
  }

  function Val1(b1: Byte, b2: Byte): (v: nat) {
    (b1 / 16 + 16 * b2) % 4096
  }

  lemma TwoTwentyFour()
    ensures Two(24) == 4096 * 4096
  {
    TwoProduct(12, 12);
    TwoTwelve();
  }

  // Three bytes further is two candidates further
  lemma CandidateShift(b: seq<Byte>, k: nat)
    requires |b| >= 3
    ensures Candidate(ValueOf(b), k + 2) == Candidate(ValueOf(b[3..]), k)
  {
    hide Two, ValueOf;
    var x, y := ValueOf(b[..3]), ValueOf(b[3..]);
    assert b == b[..3] + b[3..];
    ValueAppend(b[..3], b[3..]);
    ValueBound(b[..3]);
    TwoTwentyFour();
    DropLow(x, y, Two(24));
    TwoProduct(24, 12 * k);
    DivDiv(ValueOf(b), Two(24), Two(12 * k));
    assert 24 + 12 * k == 12 * (k + 2);
  }

  lemma DropLow(x: nat, y: nat, t: nat)
    requires x < t
    ensures (x + t * y) / t == y
  {
    assert t * y == y * t;
    DivUnique(x + t * y, t, y, x);
  }

  lemma FirstCandidates(b: seq<Byte>)
    requires |b| >= 3
    ensures Candidate(ValueOf(b), 0) == Val0(b[0], b[1]) && Candidate(ValueOf(b), 1) == Val1(b[1], b[2])
  {
    TwoTwelve();
    var v := ValueOf(b[3..]);
    assert ValueOf(b) == b[0] + 256 * (b[1] + 256 * (b[2] + 256 * v)) by {
      assert b[1..][1..] == b[2..] && b[2..][1..] == b[3..];
      assert ValueOf(b[1..]) == b[1] + 256 * ValueOf(b[2..]) && ValueOf(b[2..]) == b[2] + 256 * ValueOf(b[3..]);
    }
    FirstValues(b[0], b[1], b[2], v);
  }

  lemma FirstValues(b0: Byte, b1: Byte, b2: Byte, v: nat)
    ensures var n := b0 + 256 * (b1 + 256 * (b2 + 256 * v));
      n % 4096 == Val0(b0, b1) && n / 4096 % 4096 == Val1(b1, b2)
  {
    var q, r := b1 / 16 + 16 * b2 + 4096 * v, b0 + 256 * (b1 % 16);
    DivUnique(b0 + 256 * (b1 + 256 * (b2 + 256 * v)), 4096, q, r);
    DivUnique(b0 + 256 * b1, 4096, b1 / 16, r);
    DivUnique(q, 4096, v, b1 / 16 + 16 * b2);
    SmallRemainder(b1 / 16 + 16 * b2, 4096);
  }

  // Candidates 2 c and 2 c + 1 come from the three bytes at 3 c
  lemma {:induction false} CandidateOfBytes(b: seq<Byte>, c: nat)
    requires 3 * c + 3 <= |b|
    ensures Candidate(ValueOf(b), 2 * c) == Val0(b[3 * c], b[3 * c + 1])
    ensures Candidate(ValueOf(b), 2 * c + 1) == Val1(b[3 * c + 1], b[3 * c + 2])
    decreases c
  {
    hide Candidate, ValueOf, Val0, Val1;
    if c == 0 {
      FirstCandidates(b);
    } else {
      CandidateShift(b, 2 * c - 2);
      CandidateShift(b, 2 * c - 1);
      CandidateOfBytes(b[3..], c - 1);
      DroppedThree(b, c);
    }
  }

  lemma DroppedThree(b: seq<Byte>, c: nat)
    requires c > 0 && 3 * c + 3 <= |b|
    ensures var d := b[3..];
      d[3 * (c - 1)] == b[3 * c] && d[3 * (c - 1) + 1] == b[3 * c + 1] && d[3 * (c - 1) + 2] == b[3 * c + 2]
  {
  }

  // ----- rej_uniform -----

  // All candidates in the whole three-byte groups of b
  function AllAccepted(b: seq<Byte>): (r: seq<int>) {
    Accepted(ValueOf(b), 2 * (|b| / 3))
  }

  function Min(a: nat, b: nat): nat {
    if a < b then a else b
  }

  function Taken(v: int): seq<int> {
    if v < Q then [v] else []
  }

  lemma AcceptedNext(n: nat, c: nat)
    ensures Accepted(n, c + 1) == Accepted(n, c) + Taken(Candidate(n, c))
  {
    hide Candidate;
  }

  lemma AcceptedTwo(b: seq<Byte>, c: nat)
    requires 3 * c + 3 <= |b|
    ensures Accepted(ValueOf(b), 2 * c + 2)
         == Accepted(ValueOf(b), 2 * c) + Taken(Val0(b[3 * c], b[3 * c + 1])) + Taken(Val1(b[3 * c + 1], b[3 * c + 2]))
  {
    hide Candidate, ValueOf, Val0, Val1, Accepted, Taken;
    CandidateOfBytes(b, c);
    AcceptedNext(ValueOf(b), 2 * c);
    AcceptedNext(ValueOf(b), 2 * c + 1);
    assert 2 * c + 1 + 1 == 2 * c + 2;
  }

  // Outside len places from off, s and t agree
  predicate SameOutside(s: seq<int>, t: seq<int>, off: nat, len: nat) {
    && |s| == |t| && off + len <= |s|
    && t[..off] == s[..off] && t[off + len..] == s[off + len..]
  }

  lemma SameOutsideTrans(s: seq<int>, t: seq<int>, u: seq<int>, off: nat, len: nat)
    requires SameOutside(s, t, off, len) && SameOutside(t, u, off, len)
    ensures SameOutside(s, u, off, len)
  {
  }

  // ctr values are written: as many of the first 2 c candidates' accepted ones as fit
  predicate Written(s: seq<int>, off: nat, len: nat, ctr: nat, buf: seq<Byte>, c: nat) {
    && off + len <= |s| && ctr == Min(len, |Accepted(ValueOf(buf), 2 * c)|)
    && s[off..off + ctr] == Accepted(ValueOf(buf), 2 * c)[..ctr]
  }

  // Storing one value behind the ones written so far
  lemma Stored(s: seq<int>, off: nat, len: nat, ctr: nat, v: int)
    requires off + len <= |s| && ctr < len
    ensures var t := s[off + ctr := v];
      SameOutside(s, t, off, len) && t[off..off + ctr + 1] == s[off..off + ctr] + [v]
  {
  }

  // The loop's next step: values a written, two candidates looked at
  lemma WrittenPrefix(a: seq<int>, val0: int, val1: int, len: nat, w: seq<int>)
    requires |a| < len
    requires var b := a + Taken(val0); w == if |b| < len then b + Taken(val1) else b
    ensures var n := a + Taken(val0) + Taken(val1); |w| == Min(len, |n|) && w == n[..|w|]
  {
  }

  lemma WrittenNone(s: seq<int>, off: nat, len: nat, buf: seq<Byte>)
    requires off + len <= |s|
    ensures Written(s, off, len, 0, buf, 0) && SameOutside(s, s, off, len)
  {
    hide ValueOf;
  }

  // Room left: every accepted value so far is written
  lemma WrittenAll(s: seq<int>, off: nat, len: nat, ctr: nat, buf: seq<Byte>, c: nat)
    requires Written(s, off, len, ctr, buf, c) && ctr < len
    ensures s[off..off + ctr] == Accepted(ValueOf(buf), 2 * c)
  {
    hide Accepted, ValueOf;
  }

  lemma WrittenMore(s: seq<int>, off: nat, len: nat, ctr: nat, buf: seq<Byte>, c: nat)
    requires 3 * c + 3 <= |buf| && off + ctr <= off + len <= |s| && |Accepted(ValueOf(buf), 2 * c)| < len
    requires var b := Accepted(ValueOf(buf), 2 * c) + Taken(Val0(buf[3 * c], buf[3 * c + 1]));
      s[off..off + ctr] == if |b| < len then b + Taken(Val1(buf[3 * c + 1], buf[3 * c + 2])) else b
    ensures Written(s, off, len, ctr, buf, c + 1)
  {
    hide Accepted, ValueOf, Val0, Val1;
    AcceptedTwo(buf, c);
    assert 2 * (c + 1) == 2 * c + 2;
    WrittenPrefix(Accepted(ValueOf(buf), 2 * c), Val0(buf[3 * c], buf[3 * c + 1]), Val1(buf[3 * c + 1], buf[3 * c + 2]),
                  len, s[off..off + ctr]);
  }

  // No more groups, or no more room
  lemma WrittenDone(s: seq<int>, off: nat, len: nat, ctr: nat, buf: seq<Byte>, c: nat)
    requires Written(s, off, len, ctr, buf, c) && 3 * c <= |buf| && (ctr == len || 3 * c + 3 > |buf|)
    ensures ctr == Min(len, |AllAccepted(buf)|) && s[off..off + ctr] == AllAccepted(buf)[..ctr]
  {
    hide Accepted, ValueOf;
    AcceptedGrows(ValueOf(buf), 2 * c, 2 * (|buf| / 3));
  }

  // if (val < KYBER_Q) r[ctr++] = val
  method Store(r: array<int>, off: nat, len: nat, ctr: nat, val: int) returns (n: nat)
    requires off + len <= r.Length && ctr < len
    modifies r
    ensures n <= len && n == ctr + |Taken(val)| && r[off..off + n] == old(r[off..off + ctr]) + Taken(val)
    ensures SameOutside(old(r[..]), r[..], off, len)
  {
    Stored(r[..], off, len, ctr, val);
    n := ctr;
    if val < Q {
      r[off + ctr] := val;
      n := ctr + 1;
    }
  }

  // Writes the accepted values of buf to r[off..], at most len of them
  method RejUniform(r: array<int>, off: nat, len: nat, buf: seq<Byte>) returns (ctr: nat)
    requires off + len <= r.Length
    modifies r
    ensures ctr == Min(len, |AllAccepted(buf)|)
    ensures r[off..off + ctr] == AllAccepted(buf)[..ctr]
    ensures r[..off] == old(r[..off]) && r[off + len..] == old(r[off + len..])
  {
    hide Accepted, ValueOf, Val0, Val1, Written, AllAccepted, Taken;
    ghost var s := r[..];
    var pos := 0;
    ghost var c: nat := 0;
    ctr := 0;
    WrittenNone(s, off, len, buf);
    while ctr < len && pos + 3 <= |buf|
      invariant pos == 3 * c <= |buf| && ctr <= len
      invariant Written(r[..], off, len, ctr, buf, c) && SameOutside(s, r[..], off, len)
      decreases |buf| - pos
    {
      hide SameOutside;
      ghost var t := r[..];
      WrittenAll(t, off, len, ctr, buf, c);
      var val0 := Val0(buf[pos], buf[pos + 1]);
      var val1 := Val1(buf[pos + 1], buf[pos + 2]);
      pos := pos + 3;
      ctr := Store(r, off, len, ctr, val0);
      SameOutsideTrans(s, t, r[..], off, len);
      ghost var u := r[..];
      if ctr < len {
        ctr := Store(r, off, len, ctr, val1);
        SameOutsideTrans(s, u, r[..], off, len);
      }
      WrittenMore(r[..], off, len, ctr, buf, c);
      c := c + 1;
    }
    WrittenDone(r[..], off, len, ctr, buf, c);
  }

  // ----- gen_matrix -----

  lemma {:induction false} CandidateAfter(a: seq<Byte>, b: seq<Byte>, k: nat)
    requires |a| % 3 == 0
    ensures Candidate(ValueOf(a + b), 2 * (|a| / 3) + k) == Candidate(ValueOf(b), k)
    decreases |a|
  {
    hide Candidate, ValueOf;
    if |a| == 0 {
      assert a + b == b;
    } else {
      CandidateShift(a + b, 2 * (|a| / 3) - 2 + k);
      assert (a + b)[3..] == a[3..] + b;
      CandidateAfter(a[3..], b, k);
    }
  }

  lemma {:induction false} AcceptedAfter(a: seq<Byte>, b: seq<Byte>, k: nat)
    requires |a| % 3 == 0
    ensures Accepted(ValueOf(a + b), 2 * (|a| / 3) + k) == AllAccepted(a) + Accepted(ValueOf(b), k)
    decreases k
  {
    hide Candidate, ValueOf, Continues;
    if k == 0 {
      ValueContinues(a, b);
      AcceptedStable(ValueOf(a), ValueOf(a + b), 8 * |a|, 2 * (|a| / 3));
    } else {
      CandidateAfter(a, b, k - 1);
      AcceptedAfter(a, b, k - 1);
    }
  }

  // Splitting a stream at a multiple of three bytes does not change what is accepted
  lemma {:induction false} AcceptedSplit(a: seq<Byte>, b: seq<Byte>)
    requires |a| % 3 == 0
    ensures AllAccepted(a + b) == AllAccepted(a) + AllAccepted(b)
  {
    hide Accepted, ValueOf;
    AcceptedAfter(a, b, 2 * (|b| / 3));
  }

  const XOF_BLOCKBYTES: nat := 168
  const GEN_MATRIX_NBLOCKS: nat := 3

  // The first m blocks of an XOF
  function Blocks(xof: nat -> seq<Byte>, m: nat): (b: seq<Byte>)
    requires forall i :: |xof(i)| == XOF_BLOCKBYTES
    ensures |b| == XOF_BLOCKBYTES * m
  {
    if m == 0 then [] else Blocks(xof, m - 1) + xof(m - 1)
  }

  lemma {:induction false} BlocksAccepted(xof: nat -> seq<Byte>, m: nat, n: nat)
    requires m <= n && forall i :: |xof(i)| == XOF_BLOCKBYTES
    ensures AllAccepted(Blocks(xof, m)) <= AllAccepted(Blocks(xof, n))
    decreases n
  {
    hide AllAccepted;
    if m < n {
      BlocksAccepted(xof, m, n - 1);
      WholeGroups(n - 1);
      AcceptedSplit(Blocks(xof, n - 1), xof(n - 1));
    }
  }

  lemma WholeGroups(m: nat)
    ensures XOF_BLOCKBYTES * m % 3 == 0
  {
    assert XOF_BLOCKBYTES * m == 3 * (56 * m);
  }

  // One matrix entry: the first 256 accepted values of the XOF output. The source loops until it
  // has them; limit is a number of blocks that holds enough
  method GenEntry(xof: nat -> seq<Byte>, ghost limit: nat) returns (r: array<int>)
    requires forall i :: |xof(i)| == XOF_BLOCKBYTES
    requires |AllAccepted(Blocks(xof, limit))| >= 256
    ensures fresh(r) && r.Length == 256 && r[..] == AllAccepted(Blocks(xof, limit))[..256]
  {
    hide AllAccepted;
    r := new int[256](i => 0);
    var buf := xof(0) + xof(1) + xof(2);
    ghost var used: nat := GEN_MATRIX_NBLOCKS;
    assert Blocks(xof, 3) == Blocks(xof, 2) + xof(2) == Blocks(xof, 1) + xof(1) + xof(2);
    assert Blocks(xof, 1) == [] + xof(0) == xof(0);
    assert buf == Blocks(xof, used);
    var next := 3;
    var ctr := RejUniform(r, 0, 256, buf);
    while ctr < 256
      invariant next == used && ctr == Min(256, |AllAccepted(Blocks(xof, used))|)
      invariant r[..ctr] == AllAccepted(Blocks(xof, used))[..ctr]
      decreases limit - used
    {
      EnoughBlocks(xof, used, limit);
      ghost var a := AllAccepted(Blocks(xof, used));
      assert r[..ctr] == a;
      AcceptedSplit(Blocks(xof, used), xof(used));
      var more := RejUniform(r, ctr, 256 - ctr, xof(next));
      assert r[..ctr + more] == r[..ctr] + r[ctr..ctr + more];
      ctr := ctr + more;
      next := next + 1;
      used := used + 1;
    }
    SameEntry(xof, used, limit);
    assert r[..] == r[..256];
  }

  lemma EnoughBlocks(xof: nat -> seq<Byte>, used: nat, limit: nat)
    requires forall i :: |xof(i)| == XOF_BLOCKBYTES
    requires |AllAccepted(Blocks(xof, limit))| >= 256 > |AllAccepted(Blocks(xof, used))|
    ensures used < limit
  {
    hide AllAccepted;
    if limit <= used {
      BlocksAccepted(xof, limit, used);
    }
  }

  // The entry does not depend on how many blocks are looked at, once they hold enough values
  lemma SameEntry(xof: nat -> seq<Byte>, m: nat, n: nat)
    requires forall i :: |xof(i)| == XOF_BLOCKBYTES
    requires |AllAccepted(Blocks(xof, m))| >= 256 && |AllAccepted(Blocks(xof, n))| >= 256
    ensures AllAccepted(Blocks(xof, m))[..256] == AllAccepted(Blocks(xof, n))[..256]
  {
    hide AllAccepted;
    if m <= n {
      BlocksAccepted(xof, m, n);
    } else {
      BlocksAccepted(xof, n, m);
    }
  }

  // xof_absorb(seed, x, y) for row i and column j
  function EntryIndex(i: nat, j: nat, transposed: bool): (nat, nat) {
    if transposed then (i, j) else (j, i)
  }

  // The XOF output for index bytes x and y, as blocks
  function StreamOf(xof: (nat, nat, nat) -> seq<Byte>, x: nat, y: nat): nat -> seq<Byte> {
    i => xof(x, y, i)
  }

  ghost predicate XofOk(xof: (nat, nat, nat) -> seq<Byte>, limit: nat) {
    && (forall x, y, i :: |xof(x, y, i)| == XOF_BLOCKBYTES)
    && (forall x: nat, y: nat | x < 2 && y < 2 :: |AllAccepted(Blocks(StreamOf(xof, x, y), limit))| >= 256)
  }

  ghost function EntryOf(xof: (nat, nat, nat) -> seq<Byte>, limit: nat, x: nat, y: nat): (e: seq<int>)
    requires XofOk(xof, limit) && x < 2 && y < 2
    ensures |e| == 256
  {
    AllAccepted(Blocks(StreamOf(xof, x, y), limit))[..256]
  }

  method GenMatrix(xof: (nat, nat, nat) -> seq<Byte>, transposed: bool, ghost limit: nat) returns (a: array2<seq<int>>)
    requires XofOk(xof, limit)
    ensures fresh(a) && a.Length0 == 2 && a.Length1 == 2
    ensures forall i, j :: 0 <= i < 2 && 0 <= j < 2 ==>
      a[i, j] == EntryOf(xof, limit, EntryIndex(i, j, transposed).0, EntryIndex(i, j, transposed).1)
  {
    hide AllAccepted, Blocks;
    a := new seq<int>[2, 2]((i, j) => []);
    for i := 0 to 2
      invariant forall u, v :: 0 <= u < i && 0 <= v < 2 ==>
        a[u, v] == EntryOf(xof, limit, EntryIndex(u, v, transposed).0, EntryIndex(u, v, transposed).1)
    {
      for j := 0 to 2
        invariant forall u, v :: 0 <= u < i && 0 <= v < 2 ==>
          a[u, v] == EntryOf(xof, limit, EntryIndex(u, v, transposed).0, EntryIndex(u, v, transposed).1)
        invariant forall v :: 0 <= v < j ==>
          a[i, v] == EntryOf(xof, limit, EntryIndex(i, v, transposed).0, EntryIndex(i, v, transposed).1)
      {
        var x, y := EntryIndex(i, j, transposed).0, EntryIndex(i, j, transposed).1;
        var r := GenEntry(StreamOf(xof, x, y), limit);
        a[i, j] := r[..];
      }
    }
  }
}
