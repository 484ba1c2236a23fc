# Verified model of the Kyber-512 SoC

This project models the Kyber-512 system on a chip: the C reference code of ML-KEM, the clocked
hardware that accelerates it, the two-stage RV32I processor and the UART boot loader. It proves that
the fast, in-place or clocked forms compute what a simple meaning says they compute.

`dafny verify dfyconfig.toml` checks everything. Section numbers below are those of FIPS 202, FIPS 203
and the RISC-V unprivileged manual.

## How it is built

Every component has three layers: a specification as functions, the source's own form, and the laws
about the specification.

- C code that updates buffers in loops is a method on arrays, proved equal to a function of the old
  contents. int16, uint32 and int32 stores are written with explicit truncation (`I16`, `U32`,
  `I32`), and lemmas bound the values, so the truncations are shown not to matter where the code
  relies on that and are kept where it does not.
- A Verilog module is a record of its registers and a next-state function `Tick`; a class with one
  field per register (or per group of registers) has a `Clock` method, written as the source's
  always block, that is proved to compute `Tick`. Theorems are about every run, that is, every
  sequence of pin values: an inductive invariant, what the run has produced, and when it ends.

- A definition that a specification and an implementation both use is tied to a statement that does not use it:
  hashing and sampling to FIPS 202 and FIPS 203 on bits, the transform to evaluation at powers of 17, keys and
  ciphertexts to equations in the ring, byte strings to little-endian numbers, the processor to the manual's
  instructions in integers, the boot loader to the Intel HEX format.

The files, from the ground up:

| files | content |
|---|---|
| `Division`, `ModQ`, `Ring` | products and remainders; congruence modulo q, Montgomery and Barrett reduction; polynomials, the negacyclic product, splitting modulo X^n - z and X^n + z |
| `Zetas`, `NttSpec`, `NttEval`, `NttBlocks`, `NttImpl`, `InvNttImpl`, `PolyRing` | the root table, the transform as a ring isomorphism and as evaluation (section 4.3 of FIPS 203), the layers, the C loops, basemul, the product theorem |
| `Codecs`, `Packing`, `Compression`, `PolyVec` | compression, byte packing and vectors, with round trips and error bounds |
| `Kpke`, `KpkeCorrect`, `Indcpa`, `DecryptionFails`, `Kem`, `Cbd`, `RejSample` | K-PKE and the KEM (sections 5 and 6 of FIPS 203) in the ring, on bytes and on arrays; noise that loses every message; both samplers |
| `Sponge`, `KeccakPerm`, `Symmetric` | the C sponge interface for every permutation; the unrolled permutation against 24 rounds; K-PKE and the KEM on SHA-3 and SHAKE |
| `LaneBits`, `Fips202`, `FipsProof`, `FipsHash`, `SymmetricFips`, `Fips203` | FIPS 202 on strings of bits and the samplers of FIPS 203, stated without the program's tables and loops; the permutation, the hashes, the matrix and the noise are theirs |
| `RtlMath`, `RtlButterfly`, `RtlNttCore`, `RtlNttProof`, `RtlNttClock` | the hardware NTT engine |
| `RtlBasemul`, `RtlPwma`, `RtlPwmaProof`, `RtlCodec`, `RtlProduct` | the multiply-accumulate engine, the small codec lanes, and the whole datapath as a polynomial multiplier |
| `RtlSampler`, `RtlSamplerProof`, `RtlSamplerProgress`, `RtlCbd`, `RtlCbdProof` | the streaming samplers and the stream FIFO |
| `RtlSponge`, `RtlSpongeProof`, `RtlSpongeProgress`, `RtlHashes`, `RtlXofMatrix` | the lane-oriented sponge controller and its permutation core; each of its modes as a function of the scheme; the matrix sampler fed by it |
| `BitStream`, `RtlUnpacker`, `RtlUnpackerProof`, `RtlPacker`, `RtlPackerProof` | the ciphertext engines as buffers over one bit stream |
| `Words`, `Isa` | the numbers 32-bit words stand for; the instructions, their encodings and their meaning in integers, stated without the decoder and the ALU |
| `Rv32`, `Machine`, `Pipeline`, `PipelineProof`, `Cpu` | decode and ALU, the sequential machine, the pipeline, the simulation proof |
| `IsaFormats`, `IsaMemory`, `IsaExec`, `IsaSteps`, `IsaComplete`, `IsaRun` | the core executes those instructions: formats, arithmetic, memory, each instruction, every word, whole runs |
| `UartBoot`, `UartHex`, `UartLoader` | the boot protocol as functions of the byte stream, sender and receiver; the Intel HEX text format and its meaning; the receive loops |

## Results where the design and the code part

- The hardware Barrett unit has no rounding constant. Its range is [0, q], with q exactly for negative
  multiples of q (`RtlMath.FloorBarrettIs`); the steps behind it accept that range.
- `kyber_encode1` and `poly_tomsg` differ at residue 832 and nowhere else (`RtlCodec.Encode1Iff`), so
  the two decoders tolerate slightly different noise (`RtlCodec.Encode1DecodesIff`,
  `Codecs.DecodesIff`). Both tolerate 831.
- Decryption is not correct for all noise. `KpkeCorrect.DecryptionCorrect` and
  `Indcpa.IndcpaRoundTrip` give the exact condition on the noise, and `DecryptionFails.DecryptionFails`
  is noise within the distributions' range with which every message is lost.
- A store to the word already prefetched makes the pipeline run the old word.
  `Machine.StepCoherentIff` says exactly when, and `PipelineProof.SelfModifyingRun` runs a program from
  reset that shows it.
- Two error codes of the boot loader, 0x12 and 0x26, can never be reported: the range test before the
  loop covers every byte the loop writes.

## Model

| member | source | states |
|---|---|---|
| `Ring.MulIsSchoolbook` | kyber/ref/poly.c:290-301 | The product used in the theorems is the schoolbook product: coefficient i is the sum of a_j b_(i-j) with the wrapped terms multiplied by c, so c = -1 is Z[X]/(X^n + 1) |
| `Ring.SplitIsHomomorphism` | kyber/ref/ntt.c:80-94 | One layer, the map from X^2n - z^2 to X^n - z and X^n + z, takes products to products |
| `Zetas.TableIsRoots` | kyber/ref/ntt.c:39-56 | Every entry k of the constant table is 17^BitRev7(k) times 2^16 modulo q, for all 128 entries |
| `NttSpec.NttOfProduct` | kyber/ref/ntt.c:80-95 | The transform of a product is the product in the transform domain, at every node of the tree |
| `NttSpec.InvNttOfNtt` | kyber/ref/ntt.c:106-126 | The inverse layers undo the forward layers up to 2 per layer |
| `NttSpec.NttOfInvNtt` | kyber/ref/ntt.c:106-126 | And the other way round: forward after inverse is also multiplication by a power of two |
| `NttSpec.ProductThroughTransform` | kyber/ref/poly.c:261-301 | Inverse transform of the transform-domain product is 128 times the negacyclic product |
| `NttEval.HatIsEvaluation` | kyber/ref/ntt.c:80-95 | Entries 2 i and 2 i + 1 of the transform are the even and the odd half of the polynomial evaluated at 17^(2 BitRev7(i) + 1) |
| `ModQ.MontgomeryReduce` | kyber/ref/reduce.c:16-23 | In the stated input range the result is in (-q, q) and is the input times 2^-16 modulo q, with the int16 and int32 truncations modelled |
| `ModQ.BarrettIsCentred` | kyber/ref/reduce.c:35-42 | On every int16 the result is the centred residue, in [-(q-1)/2, (q-1)/2] |
| `NttImpl.FqmulZetaIsRoot` | kyber/ref/ntt.c:68-70 | fqmul with a table entry is multiplication by the root it stands for |
| `NttImpl.NttInPlace` | kyber/ref/ntt.c:80-95 | The triple loop with running k computes exactly the seven layers, on every int16 array |
| `NttImpl.CtLayersOk` | kyber/ref/ntt.c:80-95 | After l layers every coefficient is within b + l (q-1), nothing wraps in int16, and the values are the layers of the ring transform modulo q |
| `InvNttImpl.InvNttInPlace` | kyber/ref/ntt.c:106-126 | The inverse triple loop and the scaling loop compute exactly the seven inverse layers and the multiplication by 1441 |
| `InvNttImpl.GsLayersOk` | kyber/ref/ntt.c:106-120 | For inputs within 16383, the inverse layers stay in int16 and are the inverse layers of the ring transform modulo q |
| `PolyRing.PolyNtt` | kyber/ref/poly.c:261-265 | poly_ntt leaves the centred residues of the ring transform |
| `PolyRing.BasemulOk` | kyber/ref/ntt.c:139-146 | With zeta standing for the root g, basemul is the product modulo X^2 - g times 2^-16, within (-2q, 2q) |
| `PolyRing.PolyBasemul` | kyber/ref/poly.c:290-297 | The loop multiplies pair by pair with zetas[64 + i] and its negation |
| `PolyRing.BasemulAllOk` | kyber/ref/poly.c:290-297 | The loop's result times 2^16 is the transform-domain product |
| `PolyRing.ReferenceProduct` | kyber/ref/poly.c:261-297 | poly_invntt_tomont of poly_basemul_montgomery of the two poly_ntt is the negacyclic product modulo q, all Montgomery factors cancelled, for all polynomials |
| `PolyRing.ReferenceRoundTrip` | kyber/ref/poly.c:261-279 | poly_invntt_tomont of poly_ntt is 2^16 times the input modulo q |
| `PolyVec.BasemulAcc` | kyber/ref/polyvec.c:202-215 | The accumulated product of two vectors is exactly the reduced sum the specification names |
| `PolyVec.RowOk` | kyber/ref/polyvec.c:202-215 | That sum stands for the inner product of the two vectors in the ring |
| `Codecs.Compress10Exact` | kyber/ref/polyvec.c:50-73 | The multiply-and-shift quotient of d_u = 10 equals the rounded division for every canonical coefficient |
| `Codecs.Compress4Exact` | kyber/ref/poly.c:19-46 | The same for d_v = 4, in 32-bit arithmetic |
| `Codecs.CompressNearest` | kyber/ref/polyvec.c:50-73 | The compressed value is, modulo 2^d, the integer closest to 2^d x / q, which is unique |
| `Codecs.DecompressNearest` | kyber/ref/polyvec.c:109-128 | The decompressed value is the integer closest to q y / 2^d, upwards on a tie |
| `Codecs.CompressDecompress10` | kyber/ref/polyvec.c:109-128 | Compression undoes decompression, d_u = 10 |
| `Codecs.CompressDecompress4` | kyber/ref/poly.c:83-92 | Compression undoes decompression, d_v = 4 |
| `Codecs.DecompressCompress10` | kyber/ref/polyvec.c:50-128 | Decompression after compression moves a coefficient by at most 2 modulo q |
| `Codecs.DecompressCompress4` | kyber/ref/poly.c:19-92 | Decompression after compression moves a coefficient by at most 104 modulo q |
| `Codecs.MsgBitRange` | kyber/ref/poly.c:192-211 | On centred input poly_tomsg gives 1 exactly outside -832 .. 832 |
| `Codecs.DecodesIff` | kyber/ref/poly.c:168-211 | A message bit plus noise decodes to the bit if and only if the centred noise is in -832 .. 832 - bit |
| `Packing.PolyToBytes` | kyber/ref/poly.c:124-139 | The loop writes the 12-bit little-endian packing of the canonical coefficients and nothing else |
| `Packing.FromBytesOfToBytes` | kyber/ref/poly.c:124-158 | poly_frombytes undoes poly_tobytes |
| `Packing.Unpack10OfPack10` | kyber/ref/polyvec.c:50-128 | Unpacking undoes packing of 10-bit values |
| `Packing.Unpack4OfPack4` | kyber/ref/poly.c:19-92 | Unpacking undoes packing of 4-bit values |
| `Packing.BytesOfBitsRoundTrip` | kyber/ref/poly.c:168-211 | Message bits survive the trip through bytes |
| `Packing.BitsRoundTrip` | kyber/ref/poly.c:168-211 | Message bytes survive the trip through bits |
| `Packing.ByteEncode12` | kyber/ref/poly.c:124-139 | Three bytes, as a little-endian number, have two consecutive coefficients as their digits in base 2^12 |
| `Packing.ByteEncode10` | kyber/ref/polyvec.c:50-73 | Five bytes have four consecutive values as digits in base 2^10 |
| `Packing.ByteEncode4` | kyber/ref/poly.c:19-46 | One byte has two consecutive values as digits in base 2^4 |
| `Compression.CompressDu` | kyber/ref/polyvec.c:50-73 | The nested loops write exactly the packed compressed coefficients of one polynomial |
| `Compression.DecompressDu` | kyber/ref/polyvec.c:109-128 | The nested loops write exactly the decompressed unpacked values |
| `Compression.CompressDv` | kyber/ref/poly.c:19-46 | The same for v |
| `Compression.DecompressDv` | kyber/ref/poly.c:83-92 | The same for v |
| `Compression.FromMsg` | kyber/ref/poly.c:168-182 | The masked assignment gives 0 or (q+1)/2 for each message bit |
| `Compression.CmovInt16` | kyber/ref/verify.c:71-75 | The mask -b on 16 bits, and-ed and exclusive-or-ed, selects v for b = 1 and keeps r for b = 0 |
| `Compression.ToMsg` | kyber/ref/poly.c:192-211 | The or-ing loop writes the bytes of the decoded bits |
| `Kpke.UnhatOfProduct` | kyber/ref/poly.c:276-297 | The lifted inverse transform takes transform-domain products to ring products |
| `Kpke.KeyRowInRing` | kyber/ref/indcpa.c:205-240 | A row of the public key is A s + e in the ring |
| `KpkeCorrect.RecoveredIsNoisy` | kyber/ref/indcpa.c:314-332 | v - s^T u is the message polynomial plus e^T r + e2 + c_v - s^T (e1 + c_u), in the ring |
| `KpkeCorrect.DecryptionCorrect` | kyber/ref/indcpa.c:205-332 | Decryption returns the message if and only if every coefficient of that noise is in the decoding range of its bit |
| `Indcpa.KeypairDerand` | kyber/ref/indcpa.c:205-240 | On arrays, key generation writes a key pair of its coins: with g = G(coins, 2), the public key ends with the first half of g and its rows are A s + e in the ring, for A sampled from that half with indices j, i and s, e from the other half with nonces 0 to 3; the secret key is the transform of s |
| `Indcpa.IndcpaEnc` | kyber/ref/indcpa.c:260-300 | On arrays, encryption writes a ciphertext of its message: the compressed A^T r + e1 and t r + e2 + message in the ring, with nonces 0 to 4, eta 3 for r and 2 for e1 and e2, and the matrix seed from the end of pk |
| `Indcpa.KeyPairLaw` | kyber/ref/indcpa.c:211-240 | The ring-level key bytes satisfy that law for every coins |
| `Indcpa.CiphertextLaw` | kyber/ref/indcpa.c:268-300 | So do the ring-level ciphertext bytes for every message, key and coins |
| `Indcpa.IndcpaDec` | kyber/ref/indcpa.c:314-332 | The decryption on arrays writes exactly the bytes of the decoded polynomial |
| `Indcpa.IndcpaRoundTrip` | kyber/ref/indcpa.c:205-332 | On bytes, for every seed, message and coins: decryption undoes encryption if and only if the noise is small |
| `DecryptionFails.DecryptionFails` | kyber/ref/indcpa.c:205-332 | With the largest noise both distributions allow, no message survives: for every key seed and message, decryption returns another message |
| `Kem.Verify` | kyber/ref/verify.c:16-28 | The or-accumulated result is 0 if the buffers agree and 1 otherwise |
| `Kem.Cmov` | kyber/ref/verify.c:40-58 | The masked exclusive or copies everything or nothing |
| `Kem.KemKeypairDerand` | kyber/ref/kem.c:25-35 | The secret key is sk, pk, H(pk), z in this order, the public key the one of K-PKE |
| `Kem.KemEncDerand` | kyber/ref/kem.c:76-96 | Key and ciphertext are the hash outputs and the encryption under them |
| `Kem.KemDec` | kyber/ref/kem.c:140-170 | The loops, the comparison and the conditional copy compute Decaps |
| `Kem.KemSecretLayout` | kyber/ref/kem.c:25-35 | Every generated secret key has the layout decapsulation reads |
| `Kem.DecapsOfEncaps` | kyber/ref/kem.c:76-170 | Decapsulation returns the encapsulated key whenever the noise of that encryption is small |
| `Kem.DecapsHonest` | kyber/ref/kem.c:76-170 | For every honest ciphertext: the inner decryption returns the message if and only if the noise is small; otherwise the result is rkprf(z, ct) unless the wrong message encapsulates to the same ciphertext |
| `Kem.DecapsAcceptsIff` | kyber/ref/kem.c:140-170 | For every key and ciphertext the result is the accepted key exactly when re-encryption reproduces the ciphertext, and rkprf(z, ct) otherwise |
| `Symmetric.Shake256Rkprf` | kyber/ref/symmetric-shake.c:64-73 | Absorbing key and ciphertext one after the other and squeezing 32 bytes is SHAKE256 of their concatenation |
| `Symmetric.Sha3_256` | kyber/ref/fips202.c:745-756 | The array of sha3_256 holds the H the KEM uses |
| `Symmetric.Sha3_512` | kyber/ref/fips202.c:765-774 | The array of sha3_512 holds the G that key generation and the KEM use |
| `Symmetric.PolyGetnoiseEta1` | kyber/ref/poly.c:225-230 | The polynomial is SamplePolyCBD with eta 3 of 192 bytes of SHAKE256(seed, nonce) |
| `Symmetric.PolyGetnoiseEta2` | kyber/ref/poly.c:244-249 | The same for eta 2 and 128 bytes |
| `Symmetric.KyberValid` | kyber/ref/symmetric.h:26-31 | The hashes and samplers of the source have the lengths and ranges K-PKE and the KEM ask of their parameters |
| `Symmetric.MatrixIsGenerated` | kyber/ref/indcpa.c:165-190 | The entries gen_matrix computes are the matrix of that sampler, whatever number of blocks they take |
| `Symmetric.KyberSamples` | kyber/ref/poly.c:225-249 | The noise of the scheme for a seed and a nonce is what poly_getnoise_eta1 and poly_getnoise_eta2 write for them |
| `Symmetric.KyberKeys` | kyber/ref/kem.c:25-35 | The KEM key pair: a K-PKE key pair drawn from the halves of SHA3-512(d, 2), then pk, SHA3-256(pk) and z |
| `Symmetric.KyberCiphertext` | kyber/ref/kem.c:76-96 | The encapsulated ciphertext is the K-PKE encryption of m with noise from the second half of SHA3-512(m, SHA3-256(pk)) |
| `SymmetricFips.HashesAreSha3` | kyber/ref/symmetric.h:26-27 | Bit for bit, H is SHA3-256 and G is SHA3-512 of FIPS 202 |
| `SymmetricFips.PrfsAreShake` | kyber/ref/symmetric-shake.c:43-73 | Bit for bit, prf is SHAKE256(key, nonce) and rkprf is SHAKE256(key, ciphertext) |
| `SymmetricFips.XofIsShake128` | kyber/ref/symmetric-shake.c:18-30 | Block i of the matrix stream is bits 1344 i on of SHAKE128(seed, x, y) |
| `Fips203.MatrixIsSampleNtt` | kyber/ref/indcpa.c:121-190 | A matrix entry is SampleNTT (algorithm 7 of FIPS 203) of the bytes of that stream |
| `Fips203.StreamIsShake128` | kyber/ref/indcpa.c:165-190 | The bits of those bytes are SHAKE128(seed, x, y), however many blocks are read |
| `Fips203.NoiseIsCbd` | kyber/ref/poly.c:225-249 | A noise coefficient is SamplePolyCBD (algorithm 8) of the bits of SHAKE256(seed, nonce): ones among eta bits minus ones among the next eta |
| `Symmetric.KyberRoundTrip` | kyber/ref/kem.c:76-170 | With kr = SHA3-512(m, SHA3-256(pk)): the key is the first half of kr and the encryption coins the second; decapsulation returns that key whenever the noise is small, and a failed decryption gives rkprf(z, ct) unless the wrong message encapsulates to the same ciphertext |
| `Cbd.SumField` | kyber/ref/cbd.c:58-107 | Digit k of the bit-parallel masked sum is the number of ones among bits eta k .. eta k + eta - 1, so no digit carries into the next |
| `Cbd.Sums` | kyber/ref/cbd.c:63-67 | The masked sums of the code are these sums and fit 32 bits |
| `Cbd.Cbd2` | kyber/ref/cbd.c:58-77 | The loops write SamplePolyCBD of the bytes for eta 2 |
| `Cbd.Cbd3` | kyber/ref/cbd.c:89-107 | The loops write SamplePolyCBD of the bytes for eta 3 |
| `RejSample.RejUniform` | kyber/ref/indcpa.c:121-148 | The loop keeps the first accepted 12-bit candidates of the buffer, in order, up to the length asked for |
| `RejSample.AcceptedSplit` | kyber/ref/indcpa.c:121-190 | Reading on after a 3-byte-aligned prefix continues the same sequence of accepted values |
| `RejSample.GenEntry` | kyber/ref/indcpa.c:165-190 | An entry is the first 256 accepted values of its stream, whatever number of blocks the loop reads |
| `RejSample.GenMatrix` | kyber/ref/indcpa.c:165-190 | All four entries, with the index bytes in the order the transposition flag asks for |
| `RejSample.SameEntry` | kyber/ref/indcpa.c:165-190 | The entry depends only on the stream, not on how it is cut into blocks |
| `Sponge.KeccakAbsorb` | kyber/ref/fips202.c:373-392 | The two nested loops absorb the bytes exactly as one byte at a time |
| `Sponge.KeccakFinalize` | kyber/ref/fips202.c:405-409 | The suffix goes to the current position and the final bit to the end of the rate |
| `Sponge.KeccakSqueeze` | kyber/ref/fips202.c:426-446 | The loop outputs the next bytes of the stream and leaves the position after them |
| `Sponge.KeccakAbsorbOnce` | kyber/ref/fips202.c:461-486 | Lane-wise loading of whole blocks and bytewise tail equal absorbing and finalising, for every length |
| `Sponge.KeccakSqueezeBlocks` | kyber/ref/fips202.c:500-514 | Whole blocks equal squeezing that many bytes |
| `Sponge.AbsorbAppend` | kyber/ref/fips202.c:373-392 | Absorbing a then b equals absorbing a ++ b, at every rate that is a multiple of 8 |
| `Sponge.SqueezeAdd` | kyber/ref/fips202.c:426-446 | Squeezing n + m bytes equals squeezing n then m |
| `Sponge.IncrementalIsHash` | kyber/ref/fips202.c:353-514 | Any two-way split of the message and of the output gives the one-shot hash |
| `Sponge.Shake` | kyber/ref/fips202.c:700-735 | The one-shot XOF built from blocks and a tail is the hash |
| `Sponge.Sha3` | kyber/ref/fips202.c:745-774 | The fixed-length hashes are the hash |
| `KeccakPerm.HalfIteration` | kyber/ref/fips202.c:132-326 | Half of the unrolled loop body, with its renamed lanes, is one round |
| `KeccakPerm.StatePermute` | kyber/ref/fips202.c:82-344 | The unrolled permutation with two rounds per iteration equals 24 hardware rounds on every state |
| `FipsProof.RoundConstantIsRc` | kyber/ref/fips202.c:48-73 | Bit 2^j - 1 of constant i is rc(j + 7 i) of the shift register of FIPS 202 and every other bit is 0, for all 24 |
| `FipsProof.RoundIsFips` | rtl/kyber/keccak_round_function.v:25-100 | On the bits A[x, y, z] a round is theta, rho, pi, chi and iota of section 3.2, with offsets (t + 1)(t + 2) / 2 along the walk of rho |
| `FipsProof.PermutationIsFips` | kyber/ref/fips202.c:82-344 | The permutation is Keccak-p[1600, 24] on the bits of every state |
| `RtlSponge.RomIsRoundConstant` | rtl/kyber/keccak_f1600_core.v:56-84 | The constants the hardware selects by round number are those of the C table |
| `FipsHash.HashIsSponge` | kyber/ref/fips202.c:461-514 | For every rate, message and length the byte sponge is SPONGE of section 4: message bits, domain bits, pad10*1, blocks added and permuted, bits squeezed |
| `FipsHash.HashIsFips` | kyber/ref/fips202.c:700-774 | So the four hash functions are SHA3-256, SHA3-512, SHAKE128 and SHAKE256 of section 6, capacity twice the digest |
| `RtlMath.MontIsReference` | rtl/kyber/kyber_pqc_math.v:132-163 | The shift-add Montgomery unit computes montgomery_reduce on every input |
| `RtlMath.FloorBarrettIs` | rtl/kyber/kyber_pqc_math.v:104-196 | The Barrett unit rounds down: the canonical residue, except that a negative multiple of q gives q |
| `RtlMath.RomIsTable` | rtl/kyber/kyber_twiddle_rom.v:152-287 | The ROM holds the canonical residues of the C table |
| `RtlMath.ForwardButterfly` | rtl/kyber/kyber_pqc_math.v:198-249 | The forward butterfly gives a + zb and a - zb modulo q in [0, q] from inputs in [-q, q] |
| `RtlMath.InverseButterfly` | rtl/kyber/kyber_pqc_math.v:198-249 | The inverse butterfly gives a + b and z (b - a) modulo q in [0, q] |
| `RtlButterfly.Advances` | rtl/kyber/kyber_pqc_math.v:198-249 | A pair moves one stage per edge, whatever enters before and after it |
| `RtlButterfly.Leaves` | rtl/kyber/kyber_pqc_math.v:198-249 | After eight edges the outputs are its butterfly |
| `RtlNttProof.Addresses` | rtl/kyber/kyber_ntt_address_generator.v:20-37 | In every stage the 128 counts address each word once, as a and b of the reference loops with the twiddle of its group |
| `RtlNttProof.EdgeInStage` | rtl/kyber/kyber_ntt_core.v:96-257 | Every edge of a stage keeps the invariant on reads, pipeline slots and delayed writes |
| `RtlNttProof.StageEnds` | rtl/kyber/kyber_ntt_core.v:96-257 | A stage ends drained, with the whole layer written, before the next one reads |
| `RtlNttProof.RunEnds` | rtl/kyber/kyber_ntt_core.v:96-257 | done is high after exactly 2 + 7 * 142 edges (143 in inverse mode), with the seven stages in RAM1 |
| `RtlNttProof.NotDoneBefore` | rtl/kyber/kyber_ntt_core.v:96-257 | And not before |
| `RtlNttProof.ForwardRun` | rtl/kyber/kyber_ntt_core.v:96-257 | From values in [-q, q] a forward run leaves in RAM1 values in [0, q] congruent to the seven layers of C ntt |
| `RtlNttProof.InverseRun` | rtl/kyber/kyber_ntt_core.v:96-257 | An inverse run leaves values in [0, q] congruent to the seven layers of C invntt before the final scaling |
| `RtlNttClock.NttCore.Clock` | rtl/kyber/kyber_ntt_core.v:96-257 | The clocked blocks over RAM arrays and the delay line compute the next-state function |
| `RtlBasemul.BmAdvances` | rtl/kyber/kyber_pqc_math.v:251-320 | A pair moves one stage per edge through the five products and their reductions |
| `RtlBasemul.BaseIsReference` | rtl/kyber/kyber_pqc_math.v:251-320 | The pipeline's result is the floor-Barrett residue of C basemul |
| `RtlPwma.PwmaLocal.Clock` | rtl/kyber/kyber_pwma_local.v:201-293 | The clocked block over the two RAMs and the index pipeline computes the next-state function |
| `RtlPwmaProof.SlotAdvances` | rtl/kyber/kyber_pwma_local.v:75-160 | A valid slot of any age carries its pair's data one stage on, whatever its neighbours do |
| `RtlPwmaProof.InvStep` | rtl/kyber/kyber_pwma_local.v:201-293 | Every edge keeps: in-flight indices are consecutive, each slot holds its pair, exactly the oldest pairs are written |
| `RtlPwmaProof.RunDelivers` | rtl/kyber/kyber_pwma_local.v:201-293 | For every stall pattern done rises only after 128 accepted pairs; then the active bank holds every outcome and all other words are unchanged |
| `RtlPwmaProof.RunEnds` | rtl/kyber/kyber_pwma_local.v:201-293 | Every offered pair is taken until there are 128, and 21 edges later the engine is idle |
| `RtlPwmaProof.OutcomeIs` | rtl/kyber/kyber_pwma_local.v:132-165 | An outcome is in [0, q-1] and congruent to the old value (if accumulating) plus C basemul with its signed zeta, times 2^16 with use_tomont |
| `RtlProduct.HardwareProduct` | rtl/kyber/kyber512_core_fsm.v:123-143 | Two forward runs, one multiply run on their results, one inverse run and the final scaling give the canonical coefficients of the negacyclic product |
| `RtlCodec.Encode1Iff` | rtl/kyber/kyber_codec_blocks.v:239-252 | The lane and poly_tomsg agree on a canonical residue if and only if it is not 832 |
| `RtlCodec.Encode1DecodesIff` | rtl/kyber/kyber_codec_blocks.v:239-270 | A bit plus noise decodes in hardware if and only if the centred noise is in -832 - bit .. 831 |
| `RtlCodec.BothDecode` | rtl/kyber/kyber_codec_blocks.v:239-270 | Both decoders recover the bit under noise of at most 831 |
| `RtlCodec.Encode12Is` | rtl/kyber/kyber_codec_blocks.v:274-282 | The three bytes are those of poly_tobytes |
| `RtlCodec.Decode12Is` | rtl/kyber/kyber_codec_blocks.v:286-291 | The two values are those of poly_frombytes |
| `RtlCodec.FinishIs` | rtl/kyber/kyber512_core_fsm.v:123-143 | Multiplying by 1441, reducing and canonicalising gives the canonical value of the last loop of invntt |
| `RtlSampler.MatrixSampler.Clock` | rtl/kyber/kyber_matrix_sampler.v:83-254 | Reset and the clocked case statement compute the next-state function |
| `RtlSampler.StreamFifo.Clock` | rtl/kyber/kyber512_core_fsm.v:829-843 | Reset, the clearing outside stream mode and the clocked assignments over the slots compute the next-state function |
| `RtlSamplerProof.FifoStep` | rtl/kyber/kyber512_core_fsm.v:203-224 | A cycle takes the offered pair from the front of the queue and appends what the sampler wrote |
| `RtlSamplerProof.FifoSpace` | rtl/kyber/kyber512_core_fsm.v:203-224 | The back-pressure rule leaves room for the coefficients still under way, so eight slots suffice |
| `RtlSamplerProof.RunDelivers` | rtl/kyber/kyber_matrix_sampler.v:83-254 | For every arrival and stall pattern: delivered, queued and pending coefficients are the accepted values of the streams, in order; the count never exceeds 8 |
| `RtlSamplerProof.EntryIsReference` | rtl/kyber/kyber_matrix_sampler.v:160-230 | A finished entry is the entry of gen_matrix for the same stream |
| `RtlSamplerProof.RunIsGenMatrix` | rtl/kyber/kyber_matrix_sampler.v:83-254 | A finished run has delivered the four entries of gen_matrix in order, for either transposition |
| `RtlSamplerProgress.MatrixFinishes` | rtl/kyber/kyber_matrix_sampler.v:83-254 | If limit blocks of each stream hold 256 accepted values, 56 * 21 * limit + 20 cycles that wait for nothing leave the sampler idle and the four entries delivered |
| `RtlXofMatrix.WordsAreBytes` | rtl/kyber/kyber512_core_fsm.v:160-232 | The 64-bit words on the wire, low bits first, are the bytes of the stream |
| `RtlXofMatrix.RunSimulates` | rtl/kyber/kyber512_core_fsm.v:160-232 | Sampler and sponge wired together behave, at every edge, as the sampler on the words of SHAKE128(seed, x, y): every request is taken at once and every word taken is the next one |
| `RtlXofMatrix.HardwareMatrix` | rtl/kyber/kyber512_core_fsm.v:160-232 | Only the consumer can delay that machine; after a bounded number of other cycles it has received exactly the K-PKE matrix of the seed, or its transpose, row by row |
| `RtlSponge.KeccakCore.Clock` | rtl/kyber/keccak_f1600_core.v:56-157 | Reset and the clocked lane register and round counter compute the next-state function |
| `RtlSponge.SpongeCore.Clock` | rtl/kyber/keccak_sponge_core.v:220-424 | Reset, the controller's clocked case statement and its permutation core compute the next-state function |
| `RtlSpongeProof.MaskedLane` | rtl/kyber/keccak_sponge_core.v:86-138 | Masking a partial word and xoring the lane equals absorbing its bytes |
| `RtlSpongeProof.PaddedIsFinalize` | rtl/kyber/keccak_f1600_core.v:120-140 | The two pad xors equal keccak_finalize, also when both meet in one lane |
| `RtlSpongeProof.InvStep` | rtl/kyber/keccak_sponge_core.v:220-424 | Every edge keeps the relation between lanes, round counter, byte count and the absorbed message |
| `RtlSpongeProof.HashRun` | rtl/kyber/keccak_sponge_core.v:220-424 | For every mode, message and word protocol the result bytes are the C hash of the bytes fed, also on a rate boundary and through the second PRF block |
| `RtlSpongeProof.XofIsShake` | rtl/kyber/keccak_sponge_core.v:220-424 | The XOF words are SHAKE128 of the seed and index bytes, block after block |
| `RtlHashes.HashHRun` | rtl/kyber/keccak_sponge_core.v:220-424 | In mode HASH_H the digest is SHA3-256 of the bytes fed |
| `RtlHashes.HashGRun` | rtl/kyber/keccak_sponge_core.v:220-424 | In mode HASH_G the digest is SHA3-512 of the bytes fed |
| `RtlHashes.RkprfRun` | rtl/kyber/keccak_sponge_core.v:220-424 | In mode HASH_RKPRF, fed z and a ciphertext, the digest is the rejection key |
| `RtlHashes.PrfRun` | rtl/kyber/keccak_sponge_core.v:220-424 | In modes HASH_PRF2 and HASH_PRF3, fed a seed and a nonce, the words put out are the 128 or 192 bytes of prf |
| `RtlSpongeProgress.WordTaken` | rtl/kyber/keccak_sponge_core.v:100-138 | In the input state every well-formed word is taken at once |
| `RtlSpongeProgress.HashFinishes` | rtl/kyber/keccak_sponge_core.v:220-424 | After the last word, at most 29 moves for each word and 81 more bring the controller back to idle with the result, whatever the stalls |
| `RtlSpongeProgress.XofDelivers` | rtl/kyber/keccak_sponge_core.v:220-424 | More than n + 28 (n / 21) + 27 moves put out more than n words, and they are those of SHAKE128 |
| `BitStream.SliceDrop` | rtl/kyber/kyber512_ct_unpacker.v:49-60 | Taking bits off the front of a buffer that holds a stretch of a stream leaves the next stretch |
| `BitStream.UCoefficient` | kyber/ref/polyvec.c:109-128 | Ten bits from bit 10 i are value i of the unpacked ciphertext |
| `BitStream.VCoefficient` | kyber/ref/poly.c:83-92 | Four bits from the start of v on are its values |
| `RtlUnpacker.UnpackEngine.Clock` | rtl/kyber/kyber512_ct_unpacker.v:93-194 | The clocked case statement computes the next-state function |
| `RtlUnpackerProof.UPhaseDrains` | rtl/kyber/kyber512_ct_unpacker.v:138-166 | At the last u pair exactly its bits are left and no read is in flight |
| `RtlUnpackerProof.NoOverflow` | rtl/kyber/kyber512_ct_unpacker.v:49-55 | The bit count never exceeds 128 |
| `RtlUnpackerProof.RunUnpacks` | rtl/kyber/kyber512_ct_unpacker.v:93-194 | For every ciphertext the run ends within 1156 cycles having written exactly the 256 and 128 pairs of unpack_ciphertext, in order |
| `RtlPacker.AppendCtBits` | rtl/kyber/kyber512_ct_pack_engine.v:94-130 | The bit loop adds the bits above the accumulator and hands over a full 64-bit word exactly when one is complete |
| `RtlPacker.PackEngine.Clock` | rtl/kyber/kyber512_ct_pack_engine.v:132-243 | The clocked case statement computes the next-state function |
| `RtlPackerProof.LaneDuIs` | rtl/kyber/kyber_codec_blocks.v:74-126 | 161271 >> 29 and the C constant give the same rounded quotient for every canonical coefficient, d_u = 10 |
| `RtlPackerProof.LaneDvIs` | rtl/kyber/kyber_codec_blocks.v:74-156 | The same for d_v = 4 |
| `RtlPackerProof.BoundaryEmpty` | rtl/kyber/kyber512_ct_pack_engine.v:94-243 | The accumulator is empty between the phases and at the end |
| `RtlPackerProof.RunPacks` | rtl/kyber/kyber512_ct_pack_engine.v:132-243 | 388 cycles after the start edge the 96 words written, in address order, are the bytes of pack_ciphertext; then done rises |
| `RtlCbd.CbdSampler.Clock` | rtl/kyber/kyber_cbd_sampler.v:97-157 | The clocked case statement computes the next-state function |
| `RtlCbdProof.LaneIs` | rtl/kyber/kyber_cbd_sampler.v:35-81 | A lane of the sampler is one coefficient of SamplePolyCBD, for either eta |
| `RtlCbdProof.NoOverflow` | rtl/kyber/kyber_cbd_sampler.v:55-75 | The buffer never exceeds 128 bits |
| `RtlCbdProof.RunSamples` | rtl/kyber/kyber_cbd_sampler.v:97-157 | For every arrival pattern the 256 coefficients go to consecutive addresses; 256 edges that do not wait for a missing word end the run, words being needed only until the sixteenth or twenty-fourth is taken |
| `RtlCbdProof.RunFinishes` | rtl/kyber/kyber_cbd_sampler.v:97-157 | Every sequence of edges with 256 such edges passes through the final state |
| `Rv32.DecodeClasses` | rtl/cpu/rv32i_2stage_wb.v:493-618 | An instruction is at most one of load, store, control transfer and CSR access |
| `Rv32.StoreThenLoad` | rtl/cpu/rv32i_2stage_wb.v:279-328 | Loading what was stored gives the stored bits, sign- or zero-extended by LB, LH, LW, LBU and LHU, at every offset of an aligned access |
| `Rv32.StoreKeepsOtherBytes` | rtl/cpu/rv32i_2stage_wb.v:304-328 | A store changes only the bytes it covers |
| `Rv32.ImmIRoundTrip` | rtl/cpu/rv32i_2stage_wb.v:201-206 | The load, jump-register and arithmetic immediate decodes to the encoded value |
| `Rv32.ImmSRoundTrip` | rtl/cpu/rv32i_2stage_wb.v:208-213 | The store offset decodes to the encoded offset |
| `Rv32.ImmBRoundTrip` | rtl/cpu/rv32i_2stage_wb.v:215-221 | The branch immediate decodes to the encoded offset |
| `Rv32.ImmJRoundTrip` | rtl/cpu/rv32i_2stage_wb.v:230-236 | The jump immediate decodes to the encoded offset |
| `IsaFormats.AluIs` | rtl/cpu/rv32i_2stage_wb.v:341-358 | ADD and SUB are sums modulo 2^32, SLL, SRL and SRA product, quotient and floor quotient by 2^(b mod 32), SLT and SLTU comparisons of the two's-complement and unsigned numbers |
| `IsaFormats.BranchIs` | rtl/cpu/rv32i_2stage_wb.v:360-371 | The six branch conditions compare the numbers the operands stand for |
| `IsaMemory.LoadIs` | rtl/cpu/rv32i_2stage_wb.v:279-302 | A load gives the little-endian number in the bytes at its address, sign- or zero-extended |
| `IsaMemory.StoreIs` | rtl/cpu/rv32i_2stage_wb.v:304-328 | A store writes the low bytes of its operand to consecutive byte addresses and nothing else |
| `IsaSteps.StepMeans` | rtl/cpu/rv32i_2stage_wb.v:330-618 | On memory that holds the encoding of an RV32I, CSR or MRET instruction, one step is what the manual says that instruction does, in integers: registers, pc, memory, CSRs and traps |
| `IsaComplete.UndefinedTraps` | rtl/cpu/rv32i_2stage_wb.v:483-618 | A word that encodes no instruction raises the illegal-instruction trap, or the misaligned one if pc is misaligned, and changes nothing else |
| `Machine.StepCoherentIff` | rtl/cpu/rv32i_2stage_wb.v:620-872 | The prefetched word stays current through an instruction if and only if the instruction does not change the next word |
| `Machine.PrefetchIsPlain` | rtl/cpu/rv32i_2stage_wb.v:620-872 | While that holds, executing with one word of prefetch is executing without |
| `PipelineProof.CycleSimulates` | rtl/cpu/rv32i_2stage_wb.v:389-872 | Every clock edge is either nothing or exactly one instruction of the sequential machine, under any acknowledge delays |
| `PipelineProof.RunSimulates` | rtl/cpu/rv32i_2stage_wb.v:389-872 | Every run retires exactly the sequential state sequence |
| `PipelineProof.RunIsPlain` | rtl/cpu/rv32i_2stage_wb.v:389-872 | With no store to a prefetched word this is the plain instruction-at-a-time machine |
| `IsaRun.RunFollowsManual` | rtl/cpu/rv32i_2stage_wb.v:389-872 | Every run of the pipeline leaves the state of the manual's instructions executed one after the other, under any acknowledges, as long as no instruction overwrites the word after it |
| `PipelineProof.TrapIsPrecise` | rtl/cpu/rv32i_2stage_wb.v:405-480 | A trap changes nothing but pc and the trap CSRs, and saves the address and cause of the instruction that raised it |
| `PipelineProof.RunProgresses` | rtl/cpu/rv32i_2stage_wb.v:620-872 | Four useful cycles retire an instruction: the pipeline cannot stall by itself |
| `PipelineProof.ResetStarts` | rtl/cpu/rv32i_2stage_wb.v:620-665 | Reset establishes the invariant at the reset vector |
| `PipelineProof.SelfModifyingDiverges` | rtl/cpu/rv32i_2stage_wb.v:620-872 | A concrete program that stores to its next word makes the prefetching machine and the plain machine part after two instructions |
| `PipelineProof.SelfModifyingRun` | rtl/cpu/rv32i_2stage_wb.v:620-872 | The pipeline itself, run from reset on that program, is in another state than the plain machine within eight acknowledged cycles, so the condition of RunIsPlain is needed |
| `Cpu.Processor.Clock` | rtl/cpu/rv32i_2stage_wb.v:620-872 | The clocked block, with its nested state machine and late overrides, computes the next-state function |
| `Cpu.Processor.WriteRegister` | rtl/cpu/rv32i_2stage_wb.v:915-923 | The register file write port, with x0 fixed at zero |
| `UartBoot.RangeValidIff` | sw/apps/uart_bootloader/main.c:80-95 | The 32-bit range test accepts exactly the empty range and the ranges inside one of the two windows, wrap-around included |
| `UartBoot.BootSafe` | sw/apps/uart_bootloader/main.c:80-302 | For every byte stream nothing outside the windows changes, and a jump goes to an even address inside them |
| `UartBoot.JumpIff` | sw/apps/uart_bootloader/main.c:121-166 | The packet handler jumps if and only if the bytes are those make_binary_packet produces for some in-range request, checksum included |
| `UartBoot.PacketLands` | sw/tools/uart_loader.py:57-77 | A packet from the sender puts the payload at its destination and starts its entry point |
| `UartBoot.PacketBoots` | sw/apps/uart_bootloader/main.c:283-302 | The same through the main loop, after any leading spaces and whatever follows |
| `UartBoot.PacketLayout` | sw/tools/uart_loader.py:57-77 | The sender's packet is KBL1, four little-endian numbers and the payload |
| `UartBoot.BadMagic` | sw/apps/uart_bootloader/main.c:130-133 | The first wrong byte of the magic is error 0x10 and ends the packet there |
| `UartBoot.BadRange` | sw/apps/uart_bootloader/main.c:135-143 | A destination or entry outside the windows is error 0x11, before anything is stored |
| `UartBoot.BadSum` | sw/apps/uart_bootloader/main.c:145-160 | A wrong byte sum is error 0x13, with the payload already stored |
| `UartHex.DocumentLoads` | sw/apps/uart_bootloader/main.c:182-281 | On the Intel HEX text of any data, segment, entry and other records and the end record, whatever follows, the handler jumps to the entry or else the first data address, rounded down to even, with the memory the records describe |
| `UartHex.PayloadStored` | sw/apps/uart_bootloader/main.c:236-256 | Byte i of a data record is then at 65536 * segment + offset + i, unless a later record covers that address |
| `UartHex.DocumentBoots` | sw/apps/uart_bootloader/main.c:283-302 | The same through the main loop, after any blanks |
| `UartHex.FaultReported` | sw/apps/uart_bootloader/main.c:209-279 | After any records that fit, each malformed record ends the transfer with its code: 0x21 to 0x25 and 0x27 to 0x29, the records before it loaded |
| `UartHex.NoColonReported` | sw/apps/uart_bootloader/main.c:168-207 | Anything but a colon or a blank where a record should start is error 0x20 |
| `UartLoader.Loader.HandleBinaryPacket` | sw/apps/uart_bootloader/main.c:121-166 | The receive loops compute the packet function of the stream; the inner range check never fails |
| `UartLoader.Loader.HandleIhexStream` | sw/apps/uart_bootloader/main.c:182-281 | The record loop computes the Intel HEX function of the stream |
| `UartLoader.Loader.Run` | sw/apps/uart_bootloader/main.c:283-302 | The main loop computes the boot function of the stream |

## Left out

- Indcpa.KeypairDerand: hashing, matrix expansion and noise sampling are the parameter `Sampler` here. `Symmetric.KyberSampler` is the sampler of the source, with `Symmetric.KyberSamples` and `Symmetric.KyberKeys` for its values; the array methods take the values of the parameter and do not call the C hash methods.
- Indcpa.IndcpaEnc: as for KeypairDerand.
- IsaSteps.StepMeans: register x0 holds zero in the start state, as it does from the first clock edge on (`PipelineProof.ResetStarts`); the step keeps it (`IsaSteps.StepKeepsZero`).
- Symmetric.KyberRoundTrip: a seed whose XOF stream never holds 256 accepted values makes the loop of gen_matrix run for ever; the sampler has an arbitrary matrix there.
- Parameter sets with K = 3 or K = 4: the source builds K = 2 only.
- Where C or Verilog combines disjoint bit fields with `|`, the codec and buffer models add them. In the sponge, the permutation and the processor `|` is the bitwise operator.
- Randomness, the key-generating and encapsulating wrappers that draw it, and constant-time behaviour.
- `KemDec` and the other KEM methods: intermediate stack buffers are fresh arrays or sequences; that C callers may pass overlapping buffers is not modelled.
- PipelineProof.RunSimulates: interrupts and bus errors are held low. When an interrupt or a fetch error is taken in the cycle of a CSR instruction, the source's flush branch skips that CSR write, so the theorem would not hold.
- RtlSamplerProof.RunDelivers: `start` is only considered for an idle sampler, and the consumer's ready input stands for everything behind the FIFO; the external-memory stall of the top level is not part of this model.
- RtlSpongeProof.HashRun: `xof_release` and new requests while a hash is running are excluded, and so are words whose byte count the controller does not accept.
- RtlSpongeProof.XofIsShake: a request is followed until the next request or release.
- RtlPwmaProof.RunDelivers: the load ports and reset are not used while the engine is busy. A load in that time would take the write port from a result.
- RtlProduct.HardwareProduct: the words moved between the memories by the top-level state machine are assumed to arrive unchanged.
- RtlUnpackerProof.RunUnpacks: the ciphertext memory answers a read one cycle after its address, as the synchronous memories of the source do.
- RtlCbdProof.RunSamples: the stream marks its last word exactly at the sixteenth or twenty-fourth word.
- The sequencing of the top-level state machine (kyber512_core_fsm.v beyond the FIFO and its small functions), DMA, the ciphertext comparator, the public-key pack engine, `kyber_wb_slave`, `kyber_hash_unit` and `kyber_shake_core` wrappers.
- The registers a reset does not touch are modelled as untouched in the NTT core and the multiply-accumulate engine. Every `Clock` covers reset; the runs of the theorems start after it.
- RtlSamplerProgress.MatrixFinishes: the number of blocks that holds 256 accepted values is a parameter, since no number suffices for every seed.
- RtlXofMatrix.HardwareMatrix: the FIFO is in stream mode throughout, and a hash started on the idle sponge between two requests is not considered.
- Wishbone interconnect, peripherals, boot ROM, board wrapper, firmware drivers, test benches and build scripts.
- UartLoader.Loader.Run: UART polling, GPIO marks and the text the loader sends back are left out; receiving is taking the next byte of a stream.
- UartHex.DocumentLoads: the repository has no Intel HEX sender. The text format is the model's own rendering of records; one line ending is used throughout a document, and either case of digits throughout.
- Reading of input files and the serial port in sw/tools/uart_loader.py.
