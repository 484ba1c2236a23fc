/** The functions of kyber/ref/symmetric.h are those FIPS 203 names: H is SHA3-256, G is SHA3-512, PRF and the
    rejection key are SHAKE256, and the matrix is sampled from SHAKE128, all on bits as FIPS 202 defines them. */
module SymmetricFips {
  import Division
  import opened Zetas
  import opened Codecs
  import opened Sponge
  import opened KeccakPerm
  import opened LaneBits
  import opened FipsHash
  import opened Symmetric
  import Kem
  import F = Fips202

  // ----- The bits of a byte number -----

  // Bit j of a number
  predicate NumberBit(n: nat, j: nat) {
    n / Two(j) % 2 == 1
  }

  // The bits of a string of bytes, each byte low bit first
  function BytesBits(s: seq<Byte>): (b: seq<bool>)
    ensures |b| == 8 * |s|
  {
    seq(8 * |s|, i requires 0 <= i < 8 * |s| => NumberBit(s[i / 8], i % 8))
  }

  lemma ByteDigit(x: bv8)
    ensures ByteInt(x) == 2 * ByteInt(x >> 1) + if x & 1 != 0 then 1 else 0
  {
  }

  lemma ByteLane(x: bv8)
    ensures Down(x as Lane) == (x >> 1) as Lane && Low(x as Lane) == (x & 1 != 0)
  {
  }

  lemma HalfBit(n: nat, m: nat, d: nat, j: nat)
    requires n == 2 * m + d && d <= 1
    ensures NumberBit(n, 0) == (d == 1) && NumberBit(n, j + 1) == NumberBit(m, j)
  {
    Division.DivDiv(n, 2, Two(j));
    assert n / 2 == m && n / 1 == n;
  }

  lemma {:induction false} ByteBitIs(x: bv8, j: nat)
    ensures ByteBit(x, j) == NumberBit(ByteInt(x), j)
    decreases j
  {
    hide ByteInt, Down, Low, NumberBit;
    ByteDigit(x);
    ByteLane(x);
    if j == 0 {
      HalfBit(ByteInt(x), ByteInt(x >> 1), if x & 1 != 0 then 1 else 0, 0);
    } else {
      HalfBit(ByteInt(x), ByteInt(x >> 1), if x & 1 != 0 then 1 else 0, j - 1);
      ByteBitIs(x >> 1, j - 1);
    }
  }

  lemma BitsOfBits(s: seq<bv8>)
    ensures BytesBits(Ints(s)) == BitString(s)
  {
    hide ByteBit, NumberBit, ByteInt;
    forall i | 0 <= i < 8 * |s| ensures BytesBits(Ints(s))[i] == BitString(s)[i] {
      ByteBitIs(s[i / 8], i % 8);
    }
  }

  lemma BitsOfBytes(s: seq<Byte>)
    ensures BitString(Bits(s)) == BytesBits(s)
  {
    hide ByteInt, ByteBits, BytesBits, BitString;
    BitsOfBits(Bits(s));
    IntsOfBits(s);
  }

  lemma IntsOfBits(s: seq<Byte>)
    ensures Ints(Bits(s)) == s
  {
    forall k | 0 <= k < |s| ensures Ints(Bits(s))[k] == s[k] {
      Kem.BvByte(s[k]);
    }
  }

  // ----- The hash functions of the scheme -----

  // H is SHA3-256 and G is SHA3-512, bit for bit
  lemma {:induction false} HashesAreSha3(s: seq<Byte>)
    ensures BytesBits(HashH(s)) == F.Sha3_256(BytesBits(s)) && BytesBits(HashG(s)) == F.Sha3_512(BytesBits(s))
  {
    hide KeccakF, Hash, Bits, Ints, BytesBits, BitString, F.Keccak;
    HashIsFips(Bits(s), 0);
    BitsOfBytes(s);
    BitsOfBits(Hash(KeccakF, 136, Bits(s), 0x06, 32));
    BitsOfBits(Hash(KeccakF, 72, Bits(s), 0x06, 64));
  }

  // PRF is SHAKE256 of the key and one more byte, the rejection key SHAKE256 of the key and the ciphertext
  lemma {:induction false} PrfsAreShake(key: seq<Byte>, nonce: Byte, n: nat, input: seq<Byte>)
    ensures BytesBits(Prf(key, nonce, n)) == F.Shake256(BytesBits(key + [nonce]), 8 * n)
    ensures BytesBits(Rkprf(key, input)) == F.Shake256(BytesBits(key + input), 256)
  {
    hide KeccakF, Hash, Bits, Ints, BytesBits, BitString, F.Keccak;
    HashIsFips(Bits(key + [nonce]), n);
    HashIsFips(Bits(key + input), 32);
    BitsOfBytes(key + [nonce]);
    BitsOfBytes(key + input);
    BitsOfBits(Hash(KeccakF, 136, Bits(key + [nonce]), 0x1F, n));
    BitsOfBits(Hash(KeccakF, 136, Bits(key + input), 0x1F, 32));
  }

  // Block i of the matrix stream is bits 1344 i to 1344 (i + 1) of SHAKE128 of the seed and the two indices
  lemma {:induction false} XofIsShake128(seed: seq<Byte>, x: Byte, y: Byte, i: nat)
    ensures BytesBits(XofBlock(seed, x, y, i)) == F.Shake128(BytesBits(seed + [x, y]), 1344 * i + 1344)[1344 * i..]
  {
    hide KeccakF, Hash, Bits, BytesBits, BitString, F.Keccak, F.Shake128;
    var n := 168 * i + 168;
    var h := Hash(KeccakF, 168, Bits(seed + [x, y]), 0x1F, n);
    assert [x % 256, y % 256] == [x as int, y as int];
    HashIsFips(Bits(seed + [x, y]), n);
    BitsOfBytes(seed + [x, y]);
    BitsOfBits(h[168 * i..]);
    BitStringSplit(h[..168 * i], h[168 * i..]);
    assert h[..168 * i] + h[168 * i..] == h;
    BitStringLength(h[..168 * i]);
  }

  lemma BitStringLength(s: seq<bv8>)
    ensures |BitString(s)| == 8 * |s|
  {
    hide ByteBit;
  }
}
