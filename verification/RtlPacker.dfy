/** The ciphertext pack engine (rtl/kyber/kyber512_ct_pack_engine.v) and its compression lanes
    (rtl/kyber/kyber_codec_blocks.v): a two-cycle read pipeline, two lanes, a 64-bit accumulator and
    a 64-bit writer. Tick is one clock edge. */
module RtlPacker {
  import opened Division
  import opened ModQ
  import opened Zetas
  import opened BitStream

  // pack_bits, pack_bit_count and pack_byte_offset
  datatype Acc = Acc(bits: nat, count: nat, offset: nat)

  // ext_we, ext_addr and ext_dout; every write is of eight bytes
  datatype Ext = Ext(we: bool, addr: nat, data: nat)

  datatype Pair = Pair(c0: int, c1: int)

  datatype State = IDLE | U_RUN | V_RUN | DONE

  // An entry of the read pipeline
  datatype Slot = Slot(valid: bool, index: nat)

  datatype Engine = Engine(state: State, issue: nat, rd0: Slot, rd1: Slot, pairAddr: nat, acc: Acc, ext: Ext,
    done: bool)

  datatype Bases = Bases(ct: nat, u: nat, v: nat)

  // ----- Compression lanes -----

  // coeff_to_q12: adds q to a negative coefficient
  function ToQ12(c: int): nat {
    (if c < 0 then c + Q else c) % 4096
  }

  // mul_scale_shiftadd on 40 bits: the factor 161271 term by term
  function MulScale(c: nat): nat {
    (131072 * c + 16384 * c + 8192 * c + 4096 * c + 1024 * c + 256 * c + 128 * c + 64 * c + 32 * c + 16 * c + 4 * c
     + 2 * c + c) % 0x100_0000_0000
  }

  // kyber_compress_divider
  function Divide(c: nat): nat {
    MulScale(c) / 0x2000_0000 % 2048
  }

  // One lane of kyber_compress_du and of kyber_compress_dv
  function LaneDu(x: nat): (r: nat)
    ensures r < 1024
  {
    Divide((1024 * x + 1664) % 0x40_0000) % 1024
  }

  function LaneDv(x: nat): (r: nat)
    ensures r < 16
  {
    Divide((16 * x + 1664) % 0x1_0000) % 16
  }

  function WordDu(p: Pair): nat {
    LaneDu(ToQ12(p.c0)) + 1024 * LaneDu(ToQ12(p.c1))
  }

  function WordDv(p: Pair): nat {
    LaneDv(ToQ12(p.c0)) + 16 * LaneDv(ToQ12(p.c1))
  }

  // ----- append_ct_bits -----

  // The accumulator with n more bits, before a full word is taken off
  function Total(a: Acc, word: nat, n: nat): nat {
    a.bits + word % Two(n) * Two(a.count)
  }

  function Appended(a: Acc, word: nat, n: nat): Acc {
    hide Total, Two;
    if a.count + n < 64 then Acc(Total(a, word, n), a.count + n, a.offset)
    else Acc(Total(a, word, n) / Two(64), a.count + n - 64, (a.offset + 8) % 1024)
  }

  function ExtOf(a: Acc, word: nat, n: nat, base: nat, quiet: Ext): Ext {
    hide Total, Two;
    if a.count + n < 64 then quiet else Ext(true, (base + a.offset) % 8192, Total(a, word, n) % Two(64))
  }

  // tmp_buf[k] = b
  function SetBit(x: nat, k: nat, b: nat): nat {
    hide Two;
    MulNonNeg(x / Two(k + 1), Two(k + 1));
    MulNonNeg(b, Two(k));
    x / Two(k + 1) * Two(k + 1) + b * Two(k) + x % Two(k)
  }

  lemma SetFree(x: nat, k: nat, b: nat)
    requires x < Two(k)
    ensures SetBit(x, k, b) == x + b * Two(k)
  {
    hide Two;
    TwoMonotone(k, k + 1);
    DivUnique(x, Two(k), 0, x);
    DivUnique(x, Two(k + 1), 0, x);
  }

  // One more bit of the word
  lemma {:induction false} TotalNext(a: Acc, word: nat, i: nat)
    ensures Total(a, word, i + 1) == Total(a, word, i) + word / Two(i) % 2 * Two(a.count + i)
  {
    hide Two;
    TwoOne();
    TwoProduct(i, 1);
    DigitJoin(word, Two(i), 2);
    TwoProduct(i, a.count);
    var b := word / Two(i) % 2;
    assert (word % Two(i) + b * Two(i)) * Two(a.count) == word % Two(i) * Two(a.count)
      + b * (Two(i) * Two(a.count)) by {
      Distribute(word % Two(i), b, Two(i), Two(a.count));
    }
  }

  lemma Distribute(w: nat, b: nat, x: nat, y: nat)
    ensures (w + b * x) * y == w * y + b * (x * y)
  {
  }

  lemma {:induction false} TotalBound(a: Acc, word: nat, i: nat)
    requires a.bits < Two(a.count)
    ensures Total(a, word, i) < Two(a.count + i)
  {
    hide Two;
    TwoProduct(i, a.count);
    var w, t := word % Two(i), Two(a.count);
    MulNonNeg(Two(i) - 1 - w, t);
    assert (Two(i) - 1 - w) * t == Two(i) * t - t - w * t;
  }

  // Past the word boundary a new bit goes to the next word
  lemma {:induction false} HighBit(x: nat, b: nat, k: nat)
    requires k >= 64
    ensures (x + b * Two(k)) % Two(64) == x % Two(64) && (x + b * Two(k)) / Two(64) == x / Two(64) + b * Two(k - 64)
  {
    hide Two;
    TwoProduct(k - 64, 64);
    MulNonNeg(b, Two(k - 64));
    assert b * (Two(k - 64) * Two(64)) == b * Two(k - 64) * Two(64);
    DivAdd(x, b * Two(k - 64), Two(64));
  }

  lemma QuotientBound(x: nat, k: nat)
    requires k >= 64 && x < Two(k)
    ensures x / Two(64) < Two(k - 64)
  {
    hide Two;
    TwoProduct(k - 64, 64);
    DivBelow(x, Two(64), Two(k - 64), x / Two(64), x % Two(64));
  }

  lemma {:induction false} AppendedFits(a: Acc, word: nat, i: nat)
    requires a.bits < Two(a.count) && a.count < 64 && i < 64
    ensures Appended(a, word, i).count < 64 && Appended(a, word, i).bits < Two(Appended(a, word, i).count)
  {
    hide Two, Total;
    TotalBound(a, word, i);
    if a.count + i >= 64 {
      QuotientBound(Total(a, word, i), a.count + i);
    }
  }

  lemma {:induction false} AppendBit(a: Acc, word: nat, i: nat, base: nat, quiet: Ext)
    requires a.bits < Two(a.count) && a.count < 64 && i < 63
    ensures var s, x := Appended(a, word, i), ExtOf(a, word, i, base, quiet);
      var buf := SetBit(s.bits, s.count, word / Two(i) % 2);
      && s.count < 64
      && (if s.count + 1 == 64 then
            Appended(a, word, i + 1) == Acc(0, 0, (s.offset + 8) % 1024)
            && ExtOf(a, word, i + 1, base, quiet) == Ext(true, (base + s.offset) % 8192, buf)
          else
            Appended(a, word, i + 1) == Acc(buf, s.count + 1, s.offset)
            && ExtOf(a, word, i + 1, base, quiet) == x)
  {
    hide Two, Total, SetBit;
    AppendedFits(a, word, i);
    var s, bit := Appended(a, word, i), word / Two(i) % 2;
    SetFree(s.bits, s.count, bit);
    TotalNext(a, word, i);
    TotalBound(a, word, i + 1);
    if a.count + i >= 64 {
      HighBit(Total(a, word, i), bit, a.count + i);
    } else if a.count + i == 63 {
      FullWord(Total(a, word, i + 1));
    }
  }

  // The loop over the bits of a compressed pair: bits go to the accumulator one by one, and a full
  // word goes to the writer
  method AppendCtBits(a: Acc, word: nat, nbits: nat, base: nat, quiet: Ext) returns (b: Acc, ext: Ext)
    requires a.bits < Two(a.count) && a.count < 64 && nbits <= 32
    ensures b == Appended(a, word, nbits) && ext == ExtOf(a, word, nbits, base, quiet)
  {
    hide Two, Appended, ExtOf, SetBit;
    var tmpBuf, tmpCount, tmpOffset := a.bits, a.count, a.offset;
    ext := quiet;
    AppendNone(a, word, base, quiet);
    for i := 0 to 32
      invariant Acc(tmpBuf, tmpCount, tmpOffset) == Appended(a, word, if i < nbits then i else nbits)
      invariant ext == ExtOf(a, word, if i < nbits then i else nbits, base, quiet)
    {
      if i < nbits {
        AppendBit(a, word, i, base, quiet);
        tmpBuf := SetBit(tmpBuf, tmpCount, word / Two(i) % 2);
        tmpCount := tmpCount + 1;
        if tmpCount == 64 {
          ext := Ext(true, (base + tmpOffset) % 8192, tmpBuf);
          tmpBuf, tmpCount, tmpOffset := 0, 0, (tmpOffset + 8) % 1024;
        }
      }
    }
    b := Acc(tmpBuf, tmpCount, tmpOffset);
  }

  lemma AppendNone(a: Acc, word: nat, base: nat, quiet: Ext)
    requires a.count < 64
    ensures Appended(a, word, 0) == a && ExtOf(a, word, 0, base, quiet) == quiet
  {
    hide Total;
    TotalZero(a, word);
  }

  lemma TotalZero(a: Acc, word: nat)
    ensures Total(a, word, 0) == a.bits
  {
    assert Two(0) == 1;
  }

  lemma FullWord(x: nat)
    requires x < Two(64)
    ensures x / Two(64) == 0 && x % Two(64) == x
  {
    hide Two;
    DivUnique(x, Two(64), 0, x);
  }

  // ----- The controller -----

  const NO_SLOT: Slot := Slot(false, 0)

  // ext_we falls, ext_addr and ext_dout keep their values
  function Quiet(e: Ext): Ext {
    Ext(false, e.addr, e.data)
  }

  // The read pipeline and the issue counter of both phases
  function Issued(e: Engine, pairs: nat): (nat, Slot) {
    if e.issue < pairs then ((e.issue + 1) % 512, Slot(true, e.issue)) else (e.issue, NO_SLOT)
  }

  function PairAddr(e: Engine, pairs: nat, base: nat): nat {
    if e.issue < pairs then (base + e.issue % pairs) % 2048 else e.pairAddr
  }

  function AccNext(e: Engine, word: nat, n: nat): Acc {
    if e.rd1.valid then Appended(e.acc, word, n) else e.acc
  }

  function ExtNext(e: Engine, word: nat, n: nat, base: nat): Ext {
    if e.rd1.valid then ExtOf(e.acc, word, n, base, Quiet(e.ext)) else Quiet(e.ext)
  }

  function UStep(e: Engine, b: Bases, dout: Pair): Engine {
    var acc, ext := AccNext(e, WordDu(dout), 20), ExtNext(e, WordDu(dout), 20, b.ct);
    if e.rd1 == Slot(true, 255) then Engine(V_RUN, 0, NO_SLOT, NO_SLOT, PairAddr(e, 256, b.u), acc, ext, false)
    else Engine(U_RUN, Issued(e, 256).0, Issued(e, 256).1, e.rd0, PairAddr(e, 256, b.u), acc, ext, false)
  }

  function VStep(e: Engine, b: Bases, dout: Pair): Engine {
    var acc, ext := AccNext(e, WordDv(dout), 8), ExtNext(e, WordDv(dout), 8, b.ct);
    if e.rd1 == Slot(true, 127) then
      Engine(DONE, 0, Slot(false, Issued(e, 128).1.index), Slot(false, e.rd0.index), PairAddr(e, 128, b.v), acc, ext,
        false)
    else Engine(V_RUN, Issued(e, 128).0, Issued(e, 128).1, e.rd0, PairAddr(e, 128, b.v), acc, ext, false)
  }

  function Restart(e: Engine, start: bool): Engine {
    Engine(if start then U_RUN else IDLE, 0, Slot(false, e.rd0.index), Slot(false, e.rd1.index), e.pairAddr,
           Acc(0, 0, 0), Quiet(e.ext), false)
  }

  const RESET: Engine := Engine(IDLE, 0, NO_SLOT, NO_SLOT, 0, Acc(0, 0, 0), Ext(false, 0, 0), false)

  function Tick(e: Engine, rst: bool, start: bool, b: Bases, dout: Pair): Engine {
    if rst then RESET
    else
      match e.state
      case IDLE => Restart(e, start)
      case U_RUN => UStep(e, b, dout)
      case V_RUN => VStep(e, b, dout)
      case DONE =>
        if start then Restart(e, true)
        else Engine(DONE, e.issue, e.rd0, e.rd1, e.pairAddr, e.acc, Quiet(e.ext), true)
  }

  // ----- The clocked block -----

  // Defaults first, then the assignments of the current state over them
  class PackEngine {
    var state: State
    var issueIdx: nat
    var rd0: Slot
    var rd1: Slot
    var pairAddr: nat
    var acc: Acc
    var ext: Ext
    var done: bool

    function State(): Engine
      reads this
    {
      Engine(state, issueIdx, rd0, rd1, pairAddr, acc, ext, done)
    }

    predicate Valid()
      reads this
    {
      acc.count < 64 && acc.bits < Two(acc.count)
    }

    method Clear()
      modifies this
      ensures issueIdx == 0 && !rd0.valid && !rd1.valid && acc == Acc(0, 0, 0)
      ensures rd0.index == old(rd0.index) && rd1.index == old(rd1.index)
      ensures state == old(state) && pairAddr == old(pairAddr) && ext == old(ext) && done == old(done)
    {
      rd0, rd1 := Slot(false, rd0.index), Slot(false, rd1.index);
      issueIdx, acc := 0, Acc(0, 0, 0);
    }

    // The pipeline of both run states
    method IssueRead(pairs: nat, base: nat)
      requires pairs > 0
      modifies `rd0, `rd1, `issueIdx, `pairAddr
      ensures (issueIdx, rd0) == Issued(old(State()), pairs) && rd1 == old(rd0)
          && pairAddr == PairAddr(old(State()), pairs, base)
    {
      rd1 := rd0;
      rd0 := NO_SLOT;
      if issueIdx < pairs {
        pairAddr := (base + issueIdx % pairs) % 2048;
        rd0 := Slot(true, issueIdx);
        issueIdx := (issueIdx + 1) % 512;
      }
    }

    method Clock(rst: bool, start: bool, b: Bases, dout: Pair)
      requires Valid()
      modifies this
      ensures Valid() && State() == Tick(old(State()), rst, start, b, dout)
    {
      hide Appended, ExtOf, WordDu, WordDv, Two;
      ZeroBits();
      if rst {
        state, issueIdx, rd0, rd1, pairAddr := IDLE, 0, NO_SLOT, NO_SLOT, 0;
        acc, ext, done := Acc(0, 0, 0), Ext(false, 0, 0), false;
        return;
      }
      var e := State();
      ext, done := Quiet(e.ext), false;
      match e.state {
        case IDLE =>
          Clear();
          if start {
            state := U_RUN;
          }
        case U_RUN =>
          if e.rd1.valid {
            AppendedFits(e.acc, WordDu(dout), 20);
            acc, ext := AppendCtBits(e.acc, WordDu(dout), 20, b.ct, ext);
          }
          IssueRead(256, b.u);
          if e.rd1.valid && e.rd1.index == 255 {
            state, issueIdx, rd0, rd1 := V_RUN, 0, NO_SLOT, NO_SLOT;
          }
        case V_RUN =>
          if e.rd1.valid {
            AppendedFits(e.acc, WordDv(dout), 8);
            acc, ext := AppendCtBits(e.acc, WordDv(dout), 8, b.ct, ext);
          }
          IssueRead(128, b.v);
          if e.rd1.valid && e.rd1.index == 127 {
            state, issueIdx := DONE, 0;
            rd0, rd1 := Slot(false, rd0.index), Slot(false, rd1.index);
          }
        case DONE =>
          done := true;
          if start {
            Clear();
            done, state := false, U_RUN;
          }
      }
    }
  }

  lemma ZeroBits()
    ensures 0 < Two(0)
  {
  }
}
