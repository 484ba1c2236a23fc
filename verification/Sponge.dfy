/** The Keccak sponge of kyber/ref/fips202.c over an arbitrary permutation (section 4 of FIPS 202):
    a byte-at-a-time sponge as the meaning, and the incremental, one-shot and block-wise C functions
    proved to compute it for every message, chunking and output length. */
module Sponge {
  type Lane = bv64
  type Lanes = s: seq<Lane> | |s| == 25 witness seq(25, i => 0)
  type Perm = Lanes -> Lanes

  // (uint64_t)b << 8*k
  function Shifted(b: bv8, k: nat): Lane
    requires k < 8
  {
    var x := b as Lane;
    match k
    case 0 => x
    case 1 => x << 8
    case 2 => x << 16
    case 3 => x << 24
    case 4 => x << 32
    case 5 => x << 40
    case 6 => x << 48
    case _ => x << 56
  }

  // (uint8_t)(u >> 8*k)
  function ByteOf(u: Lane, k: nat): bv8
    requires k < 8
  {
    match k
    case 0 => (u & 0xFF) as bv8
    case 1 => ((u >> 8) & 0xFF) as bv8
    case 2 => ((u >> 16) & 0xFF) as bv8
    case 3 => ((u >> 24) & 0xFF) as bv8
    case 4 => ((u >> 32) & 0xFF) as bv8
    case 5 => ((u >> 40) & 0xFF) as bv8
    case 6 => ((u >> 48) & 0xFF) as bv8
    case _ => ((u >> 56) & 0xFF) as bv8
  }

  // Named, so that proofs about lanes need not look at bits
  function Xor(u: Lane, v: Lane): Lane {
    u ^ v
  }

  function XorByte(s: Lanes, i: nat, b: bv8): Lanes
    requires i < 200
  {
    s[i / 8 := Xor(s[i / 8], Shifted(b, i % 8))]
  }

  function ByteAt(s: Lanes, i: nat): bv8
    requires i < 200
  {
    ByteOf(s[i / 8], i % 8)
  }

  predicate RateOk(r: nat) {
    0 < r <= 200 && r % 8 == 0
  }

  // ----- The sponge, one byte at a time -----

  datatype Sponge = Sponge(s: Lanes, pos: nat)

  function Zeros(): Lanes {
    seq(25, i => 0)
  }

  function Feed(perm: Perm, r: nat, z: Sponge, b: bv8): (y: Sponge)
    requires RateOk(r) && z.pos < r
    ensures y.pos < r
  {
    var s := XorByte(z.s, z.pos, b);
    if z.pos + 1 == r then Sponge(perm(s), 0) else Sponge(s, z.pos + 1)
  }

  function Absorb(perm: Perm, r: nat, z: Sponge, msg: seq<bv8>): (y: Sponge)
    requires RateOk(r) && z.pos < r
    ensures y.pos < r
    decreases |msg|
  {
    if msg == [] then z else Absorb(perm, r, Feed(perm, r, z, msg[0]), msg[1..])
  }

  // Absorbing a then b is absorbing a followed by b
  lemma {:induction false} AbsorbAppend(perm: Perm, r: nat, z: Sponge, a: seq<bv8>, b: seq<bv8>)
    requires RateOk(r) && z.pos < r
    ensures Absorb(perm, r, z, a + b) == Absorb(perm, r, Absorb(perm, r, z, a), b)
    decreases |a|
  {
    hide Feed;
    if a == [] {
      assert a + b == b;
    } else {
      assert (a + b)[0] == a[0] && (a + b)[1..] == a[1..] + b;
      AbsorbAppend(perm, r, Feed(perm, r, z, a[0]), a[1..], b);
    }
  }

  lemma AbsorbLast(perm: Perm, r: nat, z: Sponge, msg: seq<bv8>, b: bv8)
    requires RateOk(r) && z.pos < r
    ensures Absorb(perm, r, z, msg + [b]) == Feed(perm, r, Absorb(perm, r, z, msg), b)
  {
    hide Feed;
    AbsorbAppend(perm, r, z, msg, [b]);
    assert [b][1..] == [];
  }

  // Domain byte at the current position, top bit at the end of the rate
  function Finalize(r: nat, z: Sponge, p: bv8): Lanes
    requires RateOk(r) && z.pos < r
  {
    var s := XorByte(z.s, z.pos, p);
    s[r / 8 - 1 := Xor(s[r / 8 - 1], 0x8000_0000_0000_0000)]
  }

  // The state the next output byte comes from
  function Refill(perm: Perm, r: nat, z: Sponge): (y: Sponge)
    requires RateOk(r) && z.pos <= r
    ensures y.pos < r
  {
    if z.pos == r then Sponge(perm(z.s), 0) else z
  }

  function After(perm: Perm, r: nat, z: Sponge, n: nat): (y: Sponge)
    requires RateOk(r) && z.pos <= r
    ensures y.pos <= r
  {
    if n == 0 then z else
      var y := Refill(perm, r, After(perm, r, z, n - 1));
      Sponge(y.s, y.pos + 1)
  }

  function Out(perm: Perm, r: nat, z: Sponge, n: nat): (o: seq<bv8>)
    requires RateOk(r) && z.pos <= r
    ensures |o| == n
  {
    if n == 0 then [] else
      var y := Refill(perm, r, After(perm, r, z, n - 1));
      Out(perm, r, z, n - 1) + [ByteAt(y.s, y.pos)]
  }

  // Squeezing n bytes and then m is squeezing n + m
  lemma {:induction false} SqueezeAdd(perm: Perm, r: nat, z: Sponge, n: nat, m: nat)
    requires RateOk(r) && z.pos <= r
    ensures After(perm, r, z, n + m) == After(perm, r, After(perm, r, z, n), m)
    ensures Out(perm, r, z, n + m) == Out(perm, r, z, n) + Out(perm, r, After(perm, r, z, n), m)
    decreases m
  {
    hide Refill, ByteAt;
    if m > 0 {
      SqueezeAdd(perm, r, z, n, m - 1);
    }
  }

  // ----- keccak_absorb, keccak_finalize -----

  method XorByteInPlace(s: array<Lane>, i: nat, b: bv8)
    requires s.Length == 25 && i < 200
    modifies s
    ensures s[..] == XorByte(old(s[..]), i, b)
  {
    s[i / 8] := Xor(s[i / 8], Shifted(b, i % 8));
  }

  method KeccakAbsorb(perm: Perm, s: array<Lane>, pos: nat, r: nat, msg: seq<bv8>) returns (i: nat)
    requires RateOk(r) && pos < r && s.Length == 25
    modifies s
    ensures Sponge(s[..], i) == Absorb(perm, r, Sponge(old(s[..]), pos), msg)
  {
    hide XorByte, Absorb;
    ghost var z := Sponge(s[..], pos);
    AbsorbNone(perm, r, z);
    var at: nat := 0;
    var p: nat := pos;
    while p + (|msg| - at) >= r
      invariant at <= |msg| && p < r && Sponge(s[..], p) == Absorb(perm, r, z, msg[..at])
      decreases |msg| - at
    {
      assert p + (|msg| - at) >= r;
      at := FillBlock(perm, s, p, r, msg, at, z);
      p := 0;
    }
    i := p;
    var end := p + (|msg| - at);
    while i < end
      invariant p <= i <= end && at + (end - i) == |msg| && end < r
      invariant Sponge(s[..], i) == Absorb(perm, r, z, msg[..at])
    {
      AbsorbLast(perm, r, z, msg[..at], msg[at]);
      assert msg[..at] + [msg[at]] == msg[..at + 1];
      XorByteInPlace(s, i, msg[at]);
      i, at := i + 1, at + 1;
    }
    assert msg[..at] == msg;
  }

  lemma AbsorbNone(perm: Perm, r: nat, z: Sponge)
    requires RateOk(r) && z.pos < r
    ensures Absorb(perm, r, z, []) == z
  {
  }

  // for(i=pos;i<r;i++) and the permutation
  method FillBlock(perm: Perm, s: array<Lane>, p: nat, r: nat, msg: seq<bv8>, from: nat,
    ghost z: Sponge) returns (at: nat)
    requires RateOk(r) && p < r && s.Length == 25 && z.pos < r && from <= |msg| && r - p <= |msg| - from
    requires Sponge(s[..], p) == Absorb(perm, r, z, msg[..from])
    modifies s
    ensures from < at <= |msg| && Sponge(s[..], 0) == Absorb(perm, r, z, msg[..at])
  {
    hide XorByte, Absorb;
    at := from;
    var i: nat := p;
    while i < r
      invariant p <= i <= r && at == from + (i - p)
      invariant i < r ==> Sponge(s[..], i) == Absorb(perm, r, z, msg[..at])
      invariant i == r ==> Sponge(perm(s[..]), 0) == Absorb(perm, r, z, msg[..at])
    {
      AbsorbLast(perm, r, z, msg[..at], msg[at]);
      assert msg[..at] + [msg[at]] == msg[..at + 1];
      XorByteInPlace(s, i, msg[at]);
      i, at := i + 1, at + 1;
    }
    Permute(perm, s);
  }

  method Permute(perm: Perm, s: array<Lane>)
    requires s.Length == 25
    modifies s
    ensures s[..] == perm(old(s[..]))
  {
    var t := perm(s[..]);
    var i := 0;
    while i < 25
      invariant 0 <= i <= 25 && forall k :: 0 <= k < i ==> s[k] == t[k]
    {
      s[i] := t[i];
      i := i + 1;
    }
  }

  method KeccakFinalize(s: array<Lane>, pos: nat, r: nat, p: bv8)
    requires RateOk(r) && pos < r && s.Length == 25
    modifies s
    ensures s[..] == Finalize(r, Sponge(old(s[..]), pos), p)
  {
    hide XorByte;
    XorByteInPlace(s, pos, p);
    s[r / 8 - 1] := Xor(s[r / 8 - 1], 0x8000_0000_0000_0000);
  }

  // ----- keccak_squeeze -----

  lemma OutNext(perm: Perm, r: nat, z: Sponge, n: nat)
    requires RateOk(r) && z.pos <= r
    ensures var y := Refill(perm, r, After(perm, r, z, n));
      && After(perm, r, z, n + 1) == Sponge(y.s, y.pos + 1)
      && Out(perm, r, z, n + 1) == Out(perm, r, z, n) + [ByteAt(y.s, y.pos)]
  {
    hide Refill, ByteAt;
  }

  // Bytes p up to end of the state
  function BytesOf(s: Lanes, p: nat, end: nat): (b: seq<bv8>)
    requires p <= end <= 200
    ensures |b| == end - p
  {
    seq(end - p, k requires 0 <= k < end - p => ByteAt(s, p + k))
  }

  // Within one block the output is the state's own bytes
  lemma {:induction false} OutRun(perm: Perm, r: nat, z: Sponge, done: nat, y: Sponge, n: nat)
    requires RateOk(r) && z.pos <= r && y == Refill(perm, r, After(perm, r, z, done)) && 0 < n && y.pos + n <= r
    ensures After(perm, r, z, done + n) == Sponge(y.s, y.pos + n)
    ensures Out(perm, r, z, done + n) == Out(perm, r, z, done) + BytesOf(y.s, y.pos, y.pos + n)
  {
    hide Refill, ByteAt, After, Out;
    if n == 1 {
      OutNext(perm, r, z, done);
    } else {
      OutRun(perm, r, z, done, y, n - 1);
      RefillCases(perm, r, Sponge(y.s, y.pos + (n - 1)));
      OutNext(perm, r, z, done + (n - 1));
    }
  }

  // The inner loop: *out++ = s[i/8] >> 8*(i%8)
  method StoreBytes(out: array<bv8>, at: nat, s: array<Lane>, p: nat, end: nat)
    requires s.Length == 25 && p <= end <= 200 && at + (end - p) <= out.Length
    modifies out
    ensures out[..] == old(out[..at]) + BytesOf(s[..], p, end) + old(out[at + (end - p)..])
  {
    hide ByteAt;
    ghost var o := out[..];
    var i: nat := p;
    while i < end
      invariant p <= i <= end
      invariant forall k :: 0 <= k < out.Length ==>
        out[k] == if at <= k < at + (i - p) then ByteAt(s[..], p + (k - at)) else o[k]
    {
      out[at + (i - p)] := ByteAt(s[..], i);
      i := i + 1;
    }
  }

  // if(pos == r) { KeccakF1600_StatePermute(s); pos = 0; }
  method Renew(perm: Perm, s: array<Lane>, pos: nat, r: nat) returns (p: nat)
    requires RateOk(r) && pos <= r && s.Length == 25
    modifies s
    ensures p < r && Sponge(s[..], p) == Refill(perm, r, Sponge(old(s[..]), pos))
  {
    hide Refill;
    RefillCases(perm, r, Sponge(s[..], pos));
    p := pos;
    if p == r {
      Permute(perm, s);
      p := 0;
    }
  }

  // done bytes of output stand at off, and nothing before off or from end on has changed
  ghost predicate Squeezed(o: seq<bv8>, c: seq<bv8>, perm: Perm, r: nat, z: Sponge, off: nat, end: nat, done: nat)
    requires RateOk(r) && z.pos <= r
  {
    && |c| == |o| && off + done <= end <= |c| && c[off..off + done] == Out(perm, r, z, done)
    && c[..off] == o[..off] && c[end..] == o[end..]
  }

  lemma SqueezedFrame(o: seq<bv8>, c: seq<bv8>, perm: Perm, r: nat, z: Sponge, off: nat, end: nat, done: nat)
    requires RateOk(r) && z.pos <= r && off + done <= end <= |o|
    ensures c == o && done == 0 ==> Squeezed(o, c, perm, r, z, off, end, done)
    ensures Squeezed(o, c, perm, r, z, off, end, done) ==>
        |c| == |o| && c[off..off + done] == Out(perm, r, z, done) && c[..off] == o[..off] && c[end..] == o[end..]
  {
  }

  lemma SqueezedMore(o: seq<bv8>, a: seq<bv8>, b: seq<bv8>, perm: Perm, r: nat, z: Sponge, off: nat, end: nat,
    done: nat)
    requires RateOk(r) && z.pos <= r && Squeezed(o, a, perm, r, z, off, end, done) && off + done + |b| <= end
    requires Out(perm, r, z, done + |b|) == Out(perm, r, z, done) + b
    ensures Squeezed(o, a[..off + done] + b + a[off + done + |b|..], perm, r, z, off, end, done + |b|)
  {
    hide Out;
  }

  method KeccakSqueeze(perm: Perm, out: array<bv8>, off: nat, outlen: nat, s: array<Lane>, pos: nat,
    r: nat) returns (p: nat)
    requires RateOk(r) && pos <= r && s.Length == 25 && off + outlen <= out.Length
    modifies out, s
    ensures out[off..off + outlen] == Out(perm, r, Sponge(old(s[..]), pos), outlen)
    ensures Sponge(s[..], p) == After(perm, r, Sponge(old(s[..]), pos), outlen)
    ensures out[..off] == old(out[..off]) && out[off + outlen..] == old(out[off + outlen..])
  {
    hide ByteAt, Refill, After, Out, BytesOf, Squeezed;
    ghost var z := Sponge(s[..], pos);
    ghost var o := out[..];
    SqueezeNone(perm, r, z);
    SqueezedFrame(o, o, perm, r, z, off, off + outlen, 0);
    var left: nat := outlen;
    ghost var done: nat := 0;
    p := pos;
    while left > 0
      invariant done + left == outlen && p <= r && Sponge(s[..], p) == After(perm, r, z, done)
      invariant Squeezed(o, out[..], perm, r, z, off, off + outlen, done)
      decreases left
    {
      p := Renew(perm, s, p, r);
      var end: nat := if p + left < r then p + left else r;
      OutRun(perm, r, z, done, Sponge(s[..], p), end - p);
      SqueezedMore(o, out[..], BytesOf(s[..], p, end), perm, r, z, off, off + outlen, done);
      StoreBytes(out, off + (outlen - left), s, p, end);
      left := left - (end - p);
      done := done + (end - p);
      p := end;
    }
    SqueezedFrame(o, out[..], perm, r, z, off, off + outlen, outlen);
  }

  lemma RefillCases(perm: Perm, r: nat, z: Sponge)
    requires RateOk(r) && z.pos <= r
    ensures z.pos < r ==> Refill(perm, r, z) == z
    ensures z.pos == r ==> Refill(perm, r, z) == Sponge(perm(z.s), 0)
  {
  }

  // ----- keccak_absorb_once -----

  function Or(x: Lane, y: Lane): Lane {
    x | y
  }

  function OrEight(x0: Lane, x1: Lane, x2: Lane, x3: Lane, x4: Lane, x5: Lane, x6: Lane, x7: Lane): Lane {
    Or(Or(Or(Or(Or(Or(Or(x0, x1), x2), x3), x4), x5), x6), x7)
  }

  // The eight steps r |= (uint64_t)x[i] << 8*i
  function Load64(b: seq<bv8>): Lane
    requires |b| == 8
  {
    OrEight(Shifted(b[0], 0), Shifted(b[1], 1), Shifted(b[2], 2), Shifted(b[3], 3),
            Shifted(b[4], 4), Shifted(b[5], 5), Shifted(b[6], 6), Shifted(b[7], 7))
  }

  // Xoring the first k bytes of a lane one by one
  function XorFirst(u: Lane, b: seq<bv8>, k: nat): Lane
    requires |b| == 8 && k <= 8
  {
    if k == 0 then u else Xor(XorFirst(u, b, k - 1), Shifted(b[k - 1], k - 1))
  }

  function XorEight(x0: Lane, x1: Lane, x2: Lane, x3: Lane, x4: Lane, x5: Lane, x6: Lane, x7: Lane): Lane {
    Xor(Xor(Xor(Xor(Xor(Xor(Xor(x0, x1), x2), x3), x4), x5), x6), x7)
  }

  lemma XorAssoc(a: Lane, b: Lane, c: Lane)
    ensures Xor(a, Xor(b, c)) == Xor(Xor(a, b), c)
  {
  }

  lemma XorAssociates(u: Lane, x0: Lane, x1: Lane, x2: Lane, x3: Lane, x4: Lane, x5: Lane, x6: Lane, x7: Lane)
    ensures Xor(u, XorEight(x0, x1, x2, x3, x4, x5, x6, x7))
         == Xor(Xor(Xor(Xor(Xor(Xor(Xor(Xor(u, x0), x1), x2), x3), x4), x5), x6), x7)
  {
    hide Xor;
    var y2 := Xor(x0, x1);
    var y3 := Xor(y2, x2);
    var y4 := Xor(y3, x3);
    var y5 := Xor(y4, x4);
    var y6 := Xor(y5, x5);
    XorAssoc(u, Xor(y6, x6), x7);
    XorAssoc(u, y6, x6);
    XorAssoc(u, y5, x5);
    XorAssoc(u, y4, x4);
    XorAssoc(u, y3, x3);
    XorAssoc(u, y2, x2);
    XorAssoc(u, x0, x1);
  }

  // The bits above the first k bytes
  function Above(k: nat): Lane {
    match k
    case 0 => 0xFFFF_FFFF_FFFF_FFFF
    case 1 => 0xFFFF_FFFF_FFFF_FF00
    case 2 => 0xFFFF_FFFF_FFFF_0000
    case 3 => 0xFFFF_FFFF_FF00_0000
    case 4 => 0xFFFF_FFFF_0000_0000
    case 5 => 0xFFFF_FF00_0000_0000
    case 6 => 0xFFFF_0000_0000_0000
    case 7 => 0xFF00_0000_0000_0000
    case _ => 0
  }

  predicate Clear(x: Lane, mask: Lane) {
    x & mask == 0
  }

  predicate Inside(x: Lane, mask: Lane) {
    x & !mask == 0
  }

  lemma ShiftedAbove(b: bv8, k: nat)
    requires k < 8
    ensures Inside(Shifted(b, k), Above(k))
  {
  }

  lemma ShiftedBelow(b: bv8, k: nat)
    requires k < 8
    ensures Clear(Shifted(b, k), Above(k + 1))
  {
  }

  lemma AboveNested(k: nat)
    requires k < 8
    ensures Inside(Above(k + 1), Above(k))
  {
  }

  lemma DisjointBits(x: Lane, y: Lane, m: Lane, n: Lane)
    requires x & m == 0 && y & !m == 0 && y & n == 0 && n & !m == 0
    ensures x | y == x ^ y && (x | y) & n == 0
  {
  }

  lemma Disjoint(x: Lane, y: Lane, m: Lane, n: Lane)
    requires Clear(x, m) && Inside(y, m) && Clear(y, n) && Inside(n, m)
    ensures Or(x, y) == Xor(x, y) && Clear(Or(x, y), n)
  {
    DisjointBits(x, y, m, n);
  }

  // Byte k shares no bits with the bytes below it
  lemma OrNext(x: Lane, b: bv8, k: nat)
    requires k < 8 && Clear(x, Above(k))
    ensures Or(x, Shifted(b, k)) == Xor(x, Shifted(b, k)) && Clear(Or(x, Shifted(b, k)), Above(k + 1))
  {
    hide Or, Xor, Shifted, Above, Clear, Inside;
    ShiftedAbove(b, k);
    ShiftedBelow(b, k);
    AboveNested(k);
    Disjoint(x, Shifted(b, k), Above(k), Above(k + 1));
  }

  lemma LoadIsXor(b: seq<bv8>)
    requires |b| == 8
    ensures Load64(b) == XorEight(Shifted(b[0], 0), Shifted(b[1], 1), Shifted(b[2], 2), Shifted(b[3], 3),
                                  Shifted(b[4], 4), Shifted(b[5], 5), Shifted(b[6], 6), Shifted(b[7], 7))
  {
    hide Or, Xor, Shifted, Above, Clear, Inside;
    ShiftedBelow(b[0], 0);
    var x1 := Shifted(b[0], 0);
    OrNext(x1, b[1], 1);
    var x2 := Or(x1, Shifted(b[1], 1));
    OrNext(x2, b[2], 2);
    var x3 := Or(x2, Shifted(b[2], 2));
    OrNext(x3, b[3], 3);
    var x4 := Or(x3, Shifted(b[3], 3));
    OrNext(x4, b[4], 4);
    var x5 := Or(x4, Shifted(b[4], 4));
    OrNext(x5, b[5], 5);
    var x6 := Or(x5, Shifted(b[5], 5));
    OrNext(x6, b[6], 6);
    OrNext(Or(x6, Shifted(b[6], 6)), b[7], 7);
  }

  lemma XorFirstStep(u: Lane, b: seq<bv8>, k: nat)
    requires |b| == 8 && k < 8
    ensures XorFirst(u, b, k + 1) == Xor(XorFirst(u, b, k), Shifted(b[k], k)) && XorFirst(u, b, 0) == u
  {
    hide Shifted, Xor;
  }

  // Xoring a loaded lane is xoring its bytes
  lemma {:induction false} XorFirstEight(u: Lane, b: seq<bv8>)
    requires |b| == 8
    ensures XorFirst(u, b, 8) == Xor(u, Load64(b))
  {
    hide Shifted, Load64, XorFirst, Xor, XorEight;
    LoadIsXor(b);
    XorAssociates(u, Shifted(b[0], 0), Shifted(b[1], 1), Shifted(b[2], 2), Shifted(b[3], 3),
                  Shifted(b[4], 4), Shifted(b[5], 5), Shifted(b[6], 6), Shifted(b[7], 7));
    XorFirstStep(u, b, 0);
    XorFirstStep(u, b, 1);
    XorFirstStep(u, b, 2);
    XorFirstStep(u, b, 3);
    XorFirstStep(u, b, 4);
    XorFirstStep(u, b, 5);
    XorFirstStep(u, b, 6);
    XorFirstStep(u, b, 7);
  }

  // Eight bytes fed at a lane boundary, short of the end of the rate
  function XorLane(s: Lanes, i: nat, u: Lane): Lanes
    requires i < 25
  {
    s[i := Xor(s[i], u)]
  }

  function XorBytes(s: Lanes, i: nat, b: seq<bv8>): Lanes
    requires i + |b| <= 200
    decreases |b|
  {
    if b == [] then s else XorBytes(XorByte(s, i, b[0]), i + 1, b[1..])
  }

  lemma {:induction false} XorBytesLast(s: Lanes, i: nat, b: seq<bv8>, x: bv8)
    requires i + |b| + 1 <= 200
    ensures XorBytes(s, i, b + [x]) == XorByte(XorBytes(s, i, b), i + |b|, x)
    decreases |b|
  {
    hide XorByte;
    if b == [] {
      assert ([] + [x])[1..] == [];
    } else {
      assert (b + [x])[0] == b[0] && (b + [x])[1..] == b[1..] + [x];
      XorBytesLast(XorByte(s, i, b[0]), i + 1, b[1..], x);
    }
  }

  lemma XorNone(s: Lanes, i: nat)
    requires i <= 200
    ensures XorBytes(s, i, []) == s
  {
  }

  lemma {:induction false} XorUpTo(s: Lanes, i: nat, b: seq<bv8>, k: nat)
    requires i < 25 && |b| == 8 && k <= 8
    ensures XorBytes(s, 8 * i, b[..k]) == s[i := XorFirst(s[i], b, k)]
    decreases k
  {
    hide Shifted, XorBytes, Xor;
    if k == 0 {
      XorNone(s, 8 * i);
    } else {
      XorUpTo(s, i, b, k - 1);
      XorBytesLast(s, 8 * i, b[..k - 1], b[k - 1]);
      assert b[..k - 1] + [b[k - 1]] == b[..k];
      LaneOf(i, k - 1);
    }
  }

  lemma LaneOf(i: nat, k: nat)
    requires k < 8
    ensures (8 * i + k) / 8 == i && (8 * i + k) % 8 == k
  {
  }

  lemma LoadedLane(s: Lanes, i: nat, b: seq<bv8>)
    requires i < 25 && |b| == 8
    ensures XorBytes(s, 8 * i, b) == XorLane(s, i, Load64(b))
  {
    hide Shifted, XorBytes, XorFirst, Xor, Load64;
    XorUpTo(s, i, b, 8);
    XorFirstEight(s[i], b);
    assert b[..8] == b;
  }

  // Absorbing less than the rest of a block is plain xoring
  lemma {:induction false} AbsorbIsXor(perm: Perm, r: nat, s: Lanes, pos: nat, b: seq<bv8>)
    requires RateOk(r) && pos + |b| <= r && pos < r
    ensures pos + |b| < r ==> Absorb(perm, r, Sponge(s, pos), b) == Sponge(XorBytes(s, pos, b), pos + |b|)
    ensures pos + |b| == r ==> Absorb(perm, r, Sponge(s, pos), b) == Sponge(perm(XorBytes(s, pos, b)), 0)
    decreases |b|
  {
    hide XorByte;
    if b != [] && pos + 1 < r {
      AbsorbIsXor(perm, r, XorByte(s, pos, b[0]), pos + 1, b[1..]);
    } else if b != [] {
      assert b[1..] == [];
    }
  }

  lemma {:induction false} XorBytesAppend(s: Lanes, i: nat, a: seq<bv8>, b: seq<bv8>)
    requires i + |a| + |b| <= 200
    ensures XorBytes(s, i, a + b) == XorBytes(XorBytes(s, i, a), i + |a|, b)
    decreases |a|
  {
    hide XorByte;
    if a == [] {
      assert a + b == b;
    } else {
      assert (a + b)[0] == a[0] && (a + b)[1..] == a[1..] + b;
      XorBytesAppend(XorByte(s, i, a[0]), i + 1, a[1..], b);
    }
  }

  // for(i=0;i<r/8;i++) s[i] ^= load64(in+8*i)
  method XorBlock(s: array<Lane>, r: nat, b: seq<bv8>)
    requires RateOk(r) && |b| == r && s.Length == 25
    modifies s
    ensures s[..] == XorBytes(old(s[..]), 0, b)
  {
    hide XorBytes, Load64, Xor;
    ghost var z := s[..];
    XorNone(z, 0);
    var i: nat := 0;
    while i < r / 8
      invariant i <= r / 8 && s[..] == XorBytes(z, 0, b[..8 * i])
    {
      var next := b[8 * i..8 * i + 8];
      assert b[..8 * i] + next == b[..8 * (i + 1)];
      XorBytesAppend(z, 0, b[..8 * i], next);
      LoadedLane(s[..], i, next);
      s[i] := Xor(s[i], Load64(next));
      i := i + 1;
    }
    assert b[..8 * i] == b;
  }

  method KeccakAbsorbOnce(perm: Perm, s: array<Lane>, r: nat, msg: seq<bv8>, p: bv8)
    requires RateOk(r) && s.Length == 25
    modifies s
    ensures s[..] == Finalize(r, Absorb(perm, r, Sponge(Zeros(), 0), msg), p)
  {
    hide XorByte, Absorb, XorBytes;
    var i: nat := 0;
    while i < 25
      invariant i <= 25 && forall k :: 0 <= k < i ==> s[k] == 0
    {
      s[i] := 0;
      i := i + 1;
    }
    ghost var z := Sponge(Zeros(), 0);
    assert s[..] == Zeros();
    AbsorbNone(perm, r, z);
    var at: nat := 0;
    while |msg| - at >= r
      invariant at <= |msg| && Sponge(s[..], 0) == Absorb(perm, r, z, msg[..at])
      decreases |msg| - at
    {
      var block := msg[at..at + r];
      assert msg[..at] + block == msg[..at + r];
      AbsorbAppend(perm, r, z, msg[..at], block);
      AbsorbIsXor(perm, r, s[..], 0, block);
      XorBlock(s, r, block);
      Permute(perm, s);
      at := at + r;
    }
    i := 0;
    while i < |msg| - at
      invariant i <= |msg| - at < r && Sponge(s[..], i) == Absorb(perm, r, z, msg[..at + i])
    {
      AbsorbLast(perm, r, z, msg[..at + i], msg[at + i]);
      assert msg[..at + i] + [msg[at + i]] == msg[..at + (i + 1)];
      XorByteInPlace(s, i, msg[at + i]);
      i := i + 1;
    }
    assert msg[..at + i] == msg;
    KeccakFinalize(s, i, r, p);
  }

  // ----- keccak_squeezeblocks and the one-shot functions -----

  // One block of output is the state after a permutation
  lemma {:induction false} BlockOut(perm: Perm, r: nat, z: Sponge, n: nat)
    requires RateOk(r) && z.pos == r && 0 < n <= r
    ensures After(perm, r, z, n) == Sponge(perm(z.s), n)
    ensures forall k :: 0 <= k < n ==> Out(perm, r, z, n)[k] == ByteAt(perm(z.s), k)
  {
    hide ByteAt;
    if n > 1 {
      BlockOut(perm, r, z, n - 1);
    }
  }

  // store64(out+8*i, s[i])
  method StoreLanes(out: array<bv8>, off: nat, s: array<Lane>, lanes: nat)
    requires s.Length == 25 && lanes <= 25 && off + 8 * lanes <= out.Length
    modifies out
    ensures forall k :: off <= k < off + 8 * lanes ==> out[k] == ByteAt(s[..], k - off)
    ensures out[..off] == old(out[..off]) && out[off + 8 * lanes..] == old(out[off + 8 * lanes..])
  {
    hide ByteOf;
    var k: nat := 0;
    while k < 8 * lanes
      invariant k <= 8 * lanes
      invariant forall q :: off <= q < off + k ==> out[q] == ByteAt(s[..], q - off)
      invariant out[..off] == old(out[..off]) && out[off + 8 * lanes..] == old(out[off + 8 * lanes..])
    {
      out[off + k] := ByteOf(s[k / 8], k % 8);
      k := k + 1;
    }
  }

  // One turn of the loop: a permutation and r bytes of output
  method SqueezeBlock(perm: Perm, out: array<bv8>, at: nat, s: array<Lane>, r: nat, ghost z: Sponge, ghost done: nat)
    requires RateOk(r) && s.Length == 25 && at + r <= out.Length && z.pos <= r
    requires Sponge(s[..], r) == After(perm, r, z, done)
    modifies out, s
    ensures Sponge(s[..], r) == After(perm, r, z, done + r)
    ensures Out(perm, r, z, done + r) == Out(perm, r, z, done) + out[at..at + r]
    ensures out[..at] == old(out[..at]) && out[at + r..] == old(out[at + r..])
  {
    hide ByteAt, Refill, Out, After;
    SqueezeAdd(perm, r, z, done, r);
    BlockOut(perm, r, Sponge(s[..], r), r);
    Permute(perm, s);
    StoreLanes(out, at, s, r / 8);
    assert out[at..at + r] == Out(perm, r, After(perm, r, z, done), r);
  }

  method KeccakSqueezeBlocks(perm: Perm, out: array<bv8>, off: nat, nblocks: nat, s: array<Lane>, r: nat)
    requires RateOk(r) && s.Length == 25 && off + nblocks * r <= out.Length
    modifies out, s
    ensures out[off..off + nblocks * r] == Out(perm, r, Sponge(old(s[..]), r), nblocks * r)
    ensures Sponge(s[..], r) == After(perm, r, Sponge(old(s[..]), r), nblocks * r)
    ensures out[..off] == old(out[..off]) && out[off + nblocks * r..] == old(out[off + nblocks * r..])
  {
    hide ByteAt, Refill, Out, After;
    ghost var z := Sponge(s[..], r);
    ghost var total: nat := nblocks * r;
    ghost var o := out[..];
    var left: nat := nblocks;
    var at := off;
    ghost var done: nat := 0;
    SqueezeNone(perm, r, z);
    while left > 0
      invariant left <= nblocks && at == off + done && done + left * r == total && off + total <= out.Length
      invariant Sponge(s[..], r) == After(perm, r, z, done) && out[off..at] == Out(perm, r, z, done)
      invariant out[..off] == o[..off] && out[off + total..] == o[off + total..] && |o| == out.Length
      decreases left
    {
      OneLess(left, r);
      ghost var before := out[..];
      SqueezeBlock(perm, out, at, s, r, z, done);
      Frame(before, out[..], off, at, at + r, off + total);
      at := at + r;
      left := left - 1;
      done := done + r;
    }
  }

  // Writing only between at and end
  lemma Frame(before: seq<bv8>, after: seq<bv8>, off: nat, at: nat, end: nat, stop: nat)
    requires |before| == |after| && off <= at <= end <= stop <= |after|
    requires after[..at] == before[..at] && after[end..] == before[end..]
    ensures after[..off] == before[..off] && after[stop..] == before[stop..]
    ensures after[off..end] == before[off..at] + after[at..end]
  {
    assert after[..off] == after[..at][..off] && before[..off] == before[..at][..off];
    assert after[stop..] == after[end..][stop - end..] && before[stop..] == before[end..][stop - end..];
    assert after[off..at] == after[..at][off..] && before[off..at] == before[..at][off..];
  }

  lemma OneLess(left: nat, r: nat)
    requires left > 0
    ensures left * r == (left - 1) * r + r && (left - 1) * r >= 0
  {
  }

  lemma SqueezeNone(perm: Perm, r: nat, z: Sponge)
    requires RateOk(r) && z.pos <= r
    ensures After(perm, r, z, 0) == z && Out(perm, r, z, 0) == []
  {
  }

  // What a hash of this family puts out: absorb, finalize, squeeze
  function Hash(perm: Perm, r: nat, msg: seq<bv8>, p: bv8, n: nat): (o: seq<bv8>)
    requires RateOk(r)
    ensures |o| == n
  {
    Out(perm, r, Sponge(Finalize(r, Absorb(perm, r, Sponge(Zeros(), 0), msg), p), r), n)
  }

  // shake128 and shake256: whole blocks, then the rest byte by byte
  method Shake(perm: Perm, out: array<bv8>, r: nat, msg: seq<bv8>)
    requires RateOk(r)
    modifies out
    ensures out[..] == Hash(perm, r, msg, 0x1F, out.Length)
  {
    hide Out, After, Absorb, Finalize;
    var s := new Lane[25](i => 0);
    KeccakAbsorbOnce(perm, s, r, msg, 0x1F);
    ghost var z := Sponge(s[..], r);
    var nblocks := out.Length / r;
    BlocksFit(out.Length, r);
    ghost var whole := nblocks * r;
    KeccakSqueezeBlocks(perm, out, 0, nblocks, s, r);
    ghost var first := out[..whole];
    SqueezeAdd(perm, r, z, whole, out.Length - whole);
    var p := KeccakSqueeze(perm, out, nblocks * r, out.Length - nblocks * r, s, r, r);
    assert out[..] == out[..whole] + out[whole..out.Length];
  }

  lemma BlocksFit(n: nat, r: nat)
    requires r > 0
    ensures 0 <= n / r * r <= n
  {
  }

  // sha3_256 (four lanes) and sha3_512 (eight lanes)
  method Sha3(perm: Perm, out: array<bv8>, r: nat, msg: seq<bv8>)
    requires RateOk(r) && out.Length % 8 == 0 && 0 < out.Length <= r
    modifies out
    ensures out[..] == Hash(perm, r, msg, 0x06, out.Length)
  {
    hide Out, After, Absorb, Finalize, ByteAt;
    var s := new Lane[25](i => 0);
    KeccakAbsorbOnce(perm, s, r, msg, 0x06);
    BlockOut(perm, r, Sponge(s[..], r), out.Length);
    Permute(perm, s);
    StoreLanes(out, 0, s, out.Length / 8);
  }

  // init, absorb in two parts, finalize, squeeze in two parts: the hash of the whole message
  lemma {:induction false} IncrementalIsHash(perm: Perm, r: nat, a: seq<bv8>, b: seq<bv8>, p: bv8, n: nat, m: nat)
    requires RateOk(r)
    ensures var y := Absorb(perm, r, Absorb(perm, r, Sponge(Zeros(), 0), a), b);
      var z := Sponge(Finalize(r, y, p), r);
      Out(perm, r, z, n) + Out(perm, r, After(perm, r, z, n), m) == Hash(perm, r, a + b, p, n + m)
  {
    hide Out, After, Absorb, Finalize;
    AbsorbAppend(perm, r, Sponge(Zeros(), 0), a, b);
    var z := Sponge(Finalize(r, Absorb(perm, r, Sponge(Zeros(), 0), a + b), p), r);
    SqueezeAdd(perm, r, z, n, m);
  }
}
