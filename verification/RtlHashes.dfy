/** What the hardware sponge returns in each of its five modes: SHA3-256, SHA3-512,
  the two PRFs and the rejection key of
    the scheme, for every split of the input into words and every stall. */
module RtlHashes {
  import opened Codecs
  import opened Sponge
  import opened KeccakPerm
  import opened RtlSponge
  import opened RtlSpongeProof
  import opened Symmetric

  // A run of mode m from its start edge p back to IDLE
  predicate Finished(c: Ctl, p: Pins, ps: seq<Pins>, m: Mode) {
    && CtlOk(c) && PinsOk(p) && c.state == IDLE && p.start && !p.release && !p.xofReq && p.mode == m
    && CtlOk(Tick(c, p)) && (forall i :: 0 <= i < |ps| ==> Calm(ps[i]))
    && Run(System(Tick(c, p), [], []), ps).c.state == IDLE
  }

  // The first n bytes of the lanes, and the bytes of a stream of words, as numbers
  function DigestBytes(s: Lanes, n: nat): (b: seq<Byte>)
    requires n <= 200
    ensures |b| == n
  {
    Ints(seq(n, k requires 0 <= k < n => ByteAt(s, k)))
  }

  function StreamBytes(words: seq<Lane>): (b: seq<Byte>)
    ensures |b| == 8 * |words|
  {
    Ints(seq(8 * |words|, k requires 0 <= k < 8 * |words| => StreamByte(words, k)))
  }

  // Mode HASH_H: the digest is SHA3-256 of the bytes fed
  lemma {:induction false} HashHRun(c: Ctl, p: Pins, ps: seq<Pins>)
    requires Finished(c, p, ps, HASH_H)
    ensures var t := Run(System(Tick(c, p), [], []), ps);
      DigestBytes(t.c.f.lanes, 32) == HashH(Ints(t.fed))
  {
    hide KeccakF, Run, Tick, Hash, ByteAt, ByteInt, ByteBits, CtlOk, Calm, PinsOk;
    var t := Run(System(Tick(c, p), [], []), ps);
    BitsOfInts(t.fed);
    forall k | 0 <= k < 32 ensures ByteAt(t.c.f.lanes, k) == Hash(KeccakF, 136, t.fed, 0x06, 32)[k] {
      HashRun(c, p, ps, k);
    }
  }

  // Mode HASH_G: the digest is SHA3-512 of the bytes fed
  lemma {:induction false} HashGRun(c: Ctl, p: Pins, ps: seq<Pins>)
    requires Finished(c, p, ps, HASH_G)
    ensures var t := Run(System(Tick(c, p), [], []), ps);
      DigestBytes(t.c.f.lanes, 64) == HashG(Ints(t.fed))
  {
    hide KeccakF, Run, Tick, Hash, ByteAt, ByteInt, ByteBits, CtlOk, Calm, PinsOk;
    var t := Run(System(Tick(c, p), [], []), ps);
    BitsOfInts(t.fed);
    forall k | 0 <= k < 64 ensures ByteAt(t.c.f.lanes, k) == Hash(KeccakF, 72, t.fed, 0x06, 64)[k] {
      HashRun(c, p, ps, k);
    }
  }

  // Mode HASH_RKPRF: fed the rejection seed and a ciphertext, the digest is the rejection key
  lemma {:induction false} RkprfRun(c: Ctl, p: Pins, ps: seq<Pins>, key: seq<Byte>, input: seq<Byte>)
    requires Finished(c, p, ps, HASH_RKPRF)
    requires Ints(Run(System(Tick(c, p), [], []), ps).fed) == key + input
    ensures DigestBytes(Run(System(Tick(c, p), [], []), ps).c.f.lanes, 32) == Rkprf(key, input)
  {
    hide KeccakF, Run, Tick, Hash, ByteAt, ByteInt, ByteBits, CtlOk, Calm, PinsOk;
    var t := Run(System(Tick(c, p), [], []), ps);
    BitsOfInts(t.fed);
    forall k | 0 <= k < 32 ensures ByteAt(t.c.f.lanes, k) == Hash(KeccakF, 136, t.fed, 0x1F, 32)[k] {
      HashRun(c, p, ps, k);
    }
  }

  // Modes HASH_PRF2 and HASH_PRF3: fed a seed and a nonce, the 16 or 24 words put out are the 128 or 192 bytes the
  // noise polynomials are sampled from
  lemma {:induction false} PrfRun(c: Ctl, p: Pins, ps: seq<Pins>, seed: seq<Byte>, nonce: Byte)
    requires Finished(c, p, ps, HASH_PRF2) || Finished(c, p, ps, HASH_PRF3)
    requires Ints(Run(System(Tick(c, p), [], []), ps).fed) == seed + [nonce]
    ensures StreamBytes(Run(System(Tick(c, p), [], []), ps).words)
      == Prf(seed, nonce, if p.mode == HASH_PRF2 then 128 else 192)
  {
    hide KeccakF, Run, Tick, Hash, StreamByte, ByteInt, ByteBits, CtlOk, Calm, PinsOk;
    var t := Run(System(Tick(c, p), [], []), ps);
    var n := if p.mode == HASH_PRF2 then 128 else 192;
    BitsOfInts(t.fed);
    HashRun(c, p, ps, 0);
    forall k | 0 <= k < n ensures StreamByte(t.words, k) == Hash(KeccakF, 136, t.fed, 0x1F, n)[k] {
      HashRun(c, p, ps, k);
    }
  }
}
