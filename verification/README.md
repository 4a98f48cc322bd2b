# Verification models for TheOnionPhone

This project models the algorithms and the call protocol of TheOnionPhone, a voice
application over Tor, in Dafny, and proves what they are for. Each file is one module;
`dafny verify dfyconfig.toml` checks all of them.

- **Fast Fourier transform** (`KissFactor`, `KissButterflies`, `KissFft`, `FftBridge`): the
  mixed-radix transform with its in-place butterflies and its recursion over a shared
  buffer is the discrete Fourier transform, for every length and every plan. `RingSums`,
  `ButterflySpec`, `Twiddles` and `Orthogonality` hold the mathematics.
- **AES-128** (`Gf256`, `AesColumns`, `AesTables`, `AesSpec`, `Aes`, `AesExample`): generated tables,
  table driven rounds and both key schedules against FIPS 197 and its worked example.
- **SHA-1 and HMAC** (`Sha1Spec`, `Sha1`, `Sha1Example`, `Hmac`): buffered hashing against FIPS
  180-1, with its worked example, and RFC 2104.
- **Counter mode and SRTP** (`AesIcm`, `Srtp`, `SrtpWire`) against RFC 3711; **cipher block chaining** with
  marker padding and the transform built on it (`AesCbc`, `AeXfm`), also with AES-128
  (`AesModes`).
- **Linear prediction and line spectrum pairs** (`LevinsonSpec`, `Lpc`, `LspPolynomials`,
  `LspChebyshev`, `Lsp`, `LspInverse`, `LspAngles`, `LspSearch`, `LspRecovery`,
  `LspForetold`), over the real numbers.
- **Bit packing** (`BitField`, `Pack`): Gray-coded fields of any width and alignment.
- **FIPS 140-2 tests** (`StatSpec`, `Stat`, `StatFips`, `StatRuns`, `StatRunsExample`).
- **Call handshake** (`ProtocolUtils`, `Handshake`, `HandshakeNet`, `HandshakeExchange`,
  `HandshakeTranscript`, `HandshakeCalls`, `HandshakeSafety`): caller, callee and keep-alive worker over two byte streams, as a
  transition system over all interleavings.

Code that works in place is a method on arrays or on a class with the fields of the
original, proved against a function; what the original promises is proved about that
function. Octets on a stream carry the kind of message they belong to, which the
endpoints cannot see and which only the safety statement uses.

Findings, each stated by the members named:

- The guard of counter mode adds octets to blocks in 32 bits and wraps (`AesIcm.GuardWraps`);
  below that, it passes every cut of a request that it passes (`AesIcm.GuardSplits`).
- `srtp_unprotect` cuts off a tag length that a stream without authentication never
  wrote (`Srtp.UnprotectInverts`); no setter makes such a policy.
- The marker padding writes one octet more than the padded length
  (`AesCbc.AesCbcCtx.AesCbcNistEncrypt`). The search that takes it off again stops inside
  the data exactly when they hold a marker (`AesCbc.ScanStopsIff`); the empty ciphertext
  holds none (`AesCbc.EmptyOverruns`), nor does a bare tag (`AeXfm.BareTagOverruns`).
- Clamping a reflection coefficient is exactly what keeps Levinson-Durbin from solving
  its equations, and on the autocorrelation of a frame it never happens
  (`LevinsonSpec.SolvesExactlyUnlessClamped`, `Lpc.FrameNeverClamps`). Silence is the one
  frame on which nothing is divided by nothing (`Lpc.DefiniteIffSounds`).
- The root search finds every line spectrum pair exactly when none falls on the grid of its
  search, provided that the pairs of one parity are more than delta apart and neighbours
  more than the final bracket. Where each grid starts follows from the pairs, so that this
  can be decided before the call (`LspForetold.RecoversIffForetold`, and
  `LspForetold.OffOwnGrid` for the condition). Without one of the three the search can
  lose pairs: on a grid point (`LspRecovery.GridHidesPair`), two in one cell
  (`LspRecovery.CellHidesPairs`), a neighbour above the recorded point
  (`LspRecovery.NeighbourIsPassed`).
- The monobit test accepts the end points of its interval, which FIPS 140-2 excludes
  (`StatFips.MonobitEndPoint`), and agrees with the standard on all other data
  (`StatFips.MonobitAgreesIff`). The poker test accepts its end points too, but no data reach
  them, so it agrees on all (`StatFips.PokerAgrees`).
- The runs test counts a run when the next one begins, and so never the last, which FIPS
  140-2 counts as well. The two verdicts differ exactly when they hang on that run
  (`StatRuns.RunsAgreeIff`), as on the data of `StatRunsExample.LastRunDecides`.
- The Gray decoding, documented for 8 bits, is right up to 16 and for no more
  (`BitField.UngrayRightIff`).
- `stopSending` does not wait for the worker: a waiting message after the acceptance
  desynchronises the call (`HandshakeCalls.WrongRead`); joining the two is exactly what
  is needed for accepted calls (`HandshakeSafety.SafeIff`).

## Model

| member | source | states |
|---|---|---|
| `KissFft.KissFftStride` | jni/codec2/sources/kiss_fft.c:371-383 | The output is the discrete Fourier transform of the strided input by its definition, for every length, plan and stride, with input and output distinct or the same buffer; the output beyond the transform keeps its values |
| `KissFft.KissFft` | jni/codec2/sources/kiss_fft.c:385-388 | The same with stride 1 |
| `KissFft.KfWork` | jni/codec2/sources/kiss_fft.c:238-302 | Driven by any stage list of the length, the recursion leaves in its part of the shared output the transform of its interleaved samples, and touches nothing outside that part |
| `KissFft.Recombine` | jni/codec2/sources/kiss_fft.c:294-301 | Whichever butterfly the radix selects, finished sub-transforms become the finished transform |
| `ButterflySpec.StageTransforms` | jni/codec2/sources/kiss_fft.c:238-302 | A block in which every output is the twiddled sum over its column turns p transforms of m samples into one of p*m, over any commutative ring with a table whose exponents add |
| `RingSums.Decimation` | jni/codec2/sources/kiss_fft.c:238-302 | Decimation in time: a sum of p*m samples is the combination of p interleaved sums of m samples |
| `KissFft.WorkSplits` | jni/codec2/sources/kiss_fft.c:238-302 | The recursion keeps fstride*p*m = nfft and stays inside both buffers, for every row |
| `KissButterflies.KfBfly2` | jni/codec2/sources/kiss_fft.c:21-42 | The in-place radix-2 loop computes the butterfly that the definition of the transform asks for, column by column |
| `KissButterflies.KfBfly3` | jni/codec2/sources/kiss_fft.c:92-134 | The radix-3 loop, with its half and imaginary-part shortcut, computes the butterfly of the definition |
| `KissButterflies.KfBfly4` | jni/codec2/sources/kiss_fft.c:44-90 | The radix-4 loop, which multiplies by no quarter turn, computes the butterfly of the definition for the forward and the inverse plan |
| `KissButterflies.KfBfly5` | jni/codec2/sources/kiss_fft.c:136-195 | The radix-5 loop with its two real rotations computes the butterfly of the definition |
| `KissFft.KfBflyGeneric` | jni/codec2/sources/kiss_fft.c:198-235 | The generic loop over a scratch column computes the butterfly of the definition for any radix |
| `KissFft.OneOutput` | jni/codec2/sources/kiss_fft.c:223-230 | One conditional subtraction a step keeps the twiddle index equal to q*fstride*k modulo nfft, so one output is the whole sum |
| `KissFft.AdvanceTwiddle` | jni/codec2/sources/kiss_fft.c:226-227 | Adding a step below n to a remainder and subtracting n at most once gives the next remainder |
| `KissButterflies.Radix5` | jni/codec2/sources/kiss_fft.c:136-195 | The five values the code forms are the five sums over fifth turns, given only that angles add and the modulus is one |
| `Twiddles.ThirdTurns` | jni/codec2/sources/kiss_fft.c:92-134 | A table of roots of unity satisfies at a third turn the identity the radix-3 code relies on |
| `KissFft.KissFftAlloc` | jni/codec2/sources/kiss_fft.c:339-368 | The plan holds the whole twiddle table and a stage list of the length |
| `KissFactor.KfFactor` | jni/codec2/sources/kiss_fft.c:308-330 | For every length from 1 on radix times rest is the length before, the last rest is 1 and the stages fit the buffer; from length 2 on every radix is 4 or prime, at most one is 2, and there are at most log2(n) stages |
| `KissFactor.NextCandidate` | jni/codec2/sources/kiss_fft.c:317-323 | Trying 4, 2, 3, 5, 7, ... and skipping to n behind its square root misses no divisor and terminates |
| `KissFactor.KissFftNextFastSize` | jni/codec2/sources/kiss_fft.c:396-408 | The least number from n on without a prime factor above 5; it is below 2n |
| `KissFactor.CancelSmallPrime` | jni/codec2/sources/kiss_fft.c:399-405 | A prime above 5 that divides 2, 3 or 5 times x divides x: dividing those out keeps the larger prime factors |
| `Orthogonality.DftInverts` | jni/codec2/sources/fft.c:72-101 | Transforming with one table and then with its conjugate multiplies by n: different rows of the table are orthogonal |
| `Orthogonality.PairSumVanishes` | jni/codec2/sources/fft.c:72-101 | The product of two different rows sums to zero, because a geometric sum with a ratio other than 1 telescopes |
| `FftBridge.FftGlobals.Fft` | jni/codec2/sources/fft.c:72-101 | In place on interleaved parts: sign -1 gives the forward transform although the code takes the reverse plan, any other sign the reverse one, because both ends are conjugated; the first call sets up the globals |
| `FftBridge.FftGlobals.InitializeFft` | jni/codec2/sources/fft.c:51-62 | Both plans are ready for length n, over conjugate tables |
| `FftBridge.DftInParts` | jni/codec2/sources/fft.c:79-100 | On the numbers of the array: output 2k is the sum of x[2j] Re w(kj) - x[2j+1] Im w(kj), and output 2k+1 that of x[2j] Im w(kj) + x[2j+1] Re w(kj) |
| `FftBridge.ConjDft` | jni/codec2/sources/fft.c:79-100 | Conjugating before and after a transform conjugates its table |
| `FftBridge.FftRoundTrip` | jni/codec2/sources/fft.c:72-101 | Sign -1 and then sign 1 multiply every one of the 2n numbers by n |
| `FftBridge.FftThereAndBack` | jni/codec2/sources/fft.c:72-101 | The two calls on one array, set up or not: every one of the 2n numbers is multiplied by n and nothing behind them changes |
| `FftBridge.LawsHold` | jni/codec2/sources/kiss_fft.c:357-363 | The laws asked of the two tables can be met: the quarter turns and their conjugates have them |
| `Gf256.Gf28Multiply` | jni/srtp/sources/crypto/math/gf2_8.c:53-67 | The unrolled shifts and masks compute the carry-less product modulo the field polynomial |
| `Gf256.MulIsRemainder` | jni/srtp/sources/crypto/math/gf2_8.c:53-67 | The shift-and-add product is the unique remainder of the product of polynomials over GF(2) |
| `Gf256.RemainderUnique` | jni/srtp/sources/crypto/math/gf2_8.c:53-67 | There is only one remainder modulo the field polynomial |
| `Gf256.MulAssoc` | jni/srtp/sources/crypto/math/gf2_8.c:53-67 | The multiplication is associative |
| `Gf256.MulComm` | jni/srtp/sources/crypto/math/gf2_8.c:53-67 | The multiplication is commutative |
| `Gf256.MulXor` | jni/srtp/sources/crypto/math/gf2_8.c:53-67 | The multiplication distributes over exclusive or, on both sides |
| `Gf256.InverseExists` | jni/srtp/sources/crypto/math/gf2_8.c:73-82 | Every octet but zero has an inverse |
| `Gf256.Gf28ComputeInverse` | jni/srtp/sources/crypto/math/gf2_8.c:73-82 | The search finds the one inverse, and gives 0 for 0; it never runs out |
| `AesColumns.SubByteInverts` | jni/srtp/sources/tables/aes_tables.c:78-89 | The substitution (inverse, then affine map) and the inverse substitution undo each other |
| `AesColumns.MixInverts` | jni/srtp/sources/tables/aes_tables.c:134-185 | InvMixColumns undoes MixColumns on every column |
| `AesTables.Tables.AesInitSbox` | jni/srtp/sources/tables/aes_tables.c:78-89 | The S-box holds the substitution of every octet, and the inverse S-box its inverse |
| `AesTables.Tables.AesComputeTables` | jni/srtp/sources/tables/aes_tables.c:91-131 | T0 to T3 hold MixColumns of a substituted octet in rows 0 to 3 |
| `AesTables.Tables.AesComputeInvTables` | jni/srtp/sources/tables/aes_tables.c:143-185 | U0 to U3 hold InvMixColumns of an inversely substituted octet in rows 0 to 3 |
| `Aes.ComputeAllTables` | jni/srtp/sources/tables/aes_tables.c:78-185 | Running the three generators leaves tables as the rounds and the key expansions ask for them |
| `Aes.AesRound` | jni/srtp/sources/crypto/cipher/aes.c:1504-1528 | The table-driven round is SubBytes, ShiftRows, MixColumns and AddRoundKey (section 5.1 of FIPS 197), for all states and keys |
| `Aes.AesInvRound` | jni/srtp/sources/crypto/cipher/aes.c:1531-1555 | The table-driven round is the round of the equivalent inverse cipher (section 5.3.5 of FIPS 197) |
| `Aes.AesFinalRound` | jni/srtp/sources/crypto/cipher/aes.c:1557-1591 | SubBytes, ShiftRows, AddRoundKey, with the rows rotated in place |
| `Aes.AesInvFinalRound` | jni/srtp/sources/crypto/cipher/aes.c:1593-1627 | InvSubBytes, InvShiftRows, AddRoundKey, with the rows rotated in place |
| `Aes.AesExpandEncryptionKey` | jni/srtp/sources/crypto/cipher/aes.c:1361-1412 | The round keys are those of the key expansion of section 5.2 of FIPS 197 |
| `Aes.AesExpandDecryptionKey` | jni/srtp/sources/crypto/cipher/aes.c:1414-1499 | The schedule is reversed, and its inner keys are transformed by InvMixColumns although the code goes through the U tables and the S-box |
| `Aes.AesEncrypt` | jni/srtp/sources/crypto/cipher/aes.c:1912-1931 | The block becomes its encryption by FIPS 197 under the expanded key |
| `Aes.AesDecrypt` | jni/srtp/sources/crypto/cipher/aes.c:1933-1951 | The block becomes its decryption, by the equivalent inverse cipher and so by the inverse cipher of FIPS 197 |
| `AesSpec.EqInvCipherInverts` | jni/srtp/sources/crypto/cipher/aes.c:1912-1951 | Decryption undoes encryption for every key and block |
| `AesSpec.RoundsUndone` | jni/srtp/sources/crypto/cipher/aes.c:1933-1951 | After r rounds decryption stands at the substituted state that encryption had after 9-r |
| `AesSpec.EqInvCipherIsInvCipher` | jni/srtp/sources/crypto/cipher/aes.c:1933-1951 | The equivalent inverse cipher with transformed keys is the inverse cipher |
| `AesSpec.InvMixColumnsXor` | jni/srtp/sources/crypto/cipher/aes.c:1414-1499 | InvMixColumns is linear over AddRoundKey, which is why the inner keys are transformed |
| `AesSpec.ShiftRowsAt` | jni/srtp/sources/crypto/cipher/aes.c:1504-1528 | The octet at row r and column c comes from column c+r modulo 4 of its row, and goes back there in the inverse |
| `AesSpec.StartAt` | jni/srtp/sources/crypto/cipher/aes.c:1912-1931 | Before the first round the octet at row r and column c is the sum of that of the block and that of the key |
| `AesSpec.KeyDecidesStart` | jni/srtp/sources/crypto/cipher/aes.c:1912-1931 | Two keys that give one state before the first round are one key |
| `AesSpec.KeysDecide` | jni/srtp/sources/crypto/cipher/aes.c:1504-1591 | Two round keys that take one state to one state in a round, inner or final, are one round key |
| `AesExample.RoundKeys` | jni/srtp/sources/crypto/cipher/aes.c:1361-1412 | The expansion of the key of appendix A.1 of FIPS 197 is the one printed there, round key by round key |
| `AesExample.CipherExample` | jni/srtp/sources/crypto/cipher/aes.c:1912-1951 | The key and block of appendix B of FIPS 197 give the ciphertext printed there, through the states printed there, and decryption gives the block back |
| `AesModes.EncryptExample` | jni/srtp/sources/crypto/cipher/aes.c:1912-1931 | The same on octets in the order in which they stand in memory |
| `Sha1.Sha1Core` | jni/srtp/sources/crypto/hash/sha1.c:98-183 | The schedule written out word by word and the four loops are the compression of FIPS 180-1 |
| `Sha1.Sha1Ctx.Init` | jni/srtp/sources/crypto/hash/sha1.c:185-201 | The context stands for the empty message |
| `Sha1.Sha1Ctx.Update` | jni/srtp/sources/crypto/hash/sha1.c:203-244 | The context stands for the old message and the new octets, however the message is cut |
| `Sha1.Sha1Ctx.Final` | jni/srtp/sources/crypto/hash/sha1.c:251-401 | The FIPS 180-1 digest of everything since the context was initialised, for less than 2^29 octets, with the extra block exactly from 56 buffered octets on |
| `Sha1.AssembleTail` | jni/srtp/sources/crypto/hash/sha1.c:257-300 | The words of the first tail block: whole words copied, the marker bit behind one, two, three or no octets of the last word, the bit count if there is room |
| `Sha1.DigestOfTail` | jni/srtp/sources/crypto/hash/sha1.c:251-401 | One or two hand-made tail blocks are the padding of section 4 of FIPS 180-1 |
| `Sha1.Sha1` | jni/srtp/sources/crypto/hash/sha1.c:76-84 | Initialising, one update and the final step give the digest |
| `Sha1Example.RegistersOfAbc` | jni/srtp/sources/crypto/hash/sha1.c:98-183 | On the block of the message abc the registers after every fourth step are those of appendix A of FIPS 180-1 |
| `Sha1Example.DigestOfAbc` | jni/srtp/sources/crypto/hash/sha1.c:76-401 | The digest of abc is a9993e36 4706816a ba3e2571 7850c26c 9cd0d89d, as appendix A of FIPS 180-1 has it |
| `Hmac.HmacCtx.Init` | jni/srtp/sources/crypto/hash/hmac.c:111-147 | Keys of more than 20 octets are refused; otherwise a round under the key begins |
| `Hmac.HmacCtx.Start` | jni/srtp/sources/crypto/hash/hmac.c:149-155 | A new round under the same key begins, whatever was hashed before |
| `Hmac.HmacCtx.Update` | jni/srtp/sources/crypto/hash/hmac.c:157-167 | The data of the round grows by the message |
| `Hmac.HmacCtx.Compute` | jni/srtp/sources/crypto/hash/hmac.c:169-211 | The tag is the truncated HMAC-SHA1 (section 2 of RFC 2104) of the data of this round alone, tags above 20 octets are refused without effect, and the context keeps its key |
| `Hmac.HmacIs` | jni/srtp/sources/crypto/hash/hmac.c:111-211 | The tag is that of RFC 2104 for whatever strings hold the key and zeros combined with 0x5c and with 0x36 octet by octet |
| `Hmac.PaddedAlikeIff` | jni/srtp/sources/crypto/hash/hmac.c:119-139 | Two keys are padded alike if and only if they differ by zeros at their ends alone |
| `AesIcm.AesIcmCtx.AesIcmEncrypt` | jni/srtp/sources/crypto/cipher/aes_icm.c:329-435 | Through the keystream buffer and in place: the range becomes its encryption and the context steps on, or the guard refuses and nothing changes; the blocks enciphered are the counter values in order |
| `AesIcm.AesIcmCtx.AdvanceIcm` | jni/srtp/sources/crypto/cipher/aes_icm.c:286-309 | The counter is enciphered into the buffer and then its last 16 bits are stepped |
| `AesIcm.AesIcmCtx.SetIv` | jni/srtp/sources/crypto/cipher/aes_icm.c:259-275 | The counter starts at the salt combined with the IV and the buffer is empty |
| `AesIcm.EncryptedSplits` | jni/srtp/sources/crypto/cipher/aes_icm.c:329-435 | Encrypting a+b is encrypting a and then b, octet for octet |
| `AesIcm.AfterAdds` | jni/srtp/sources/crypto/cipher/aes_icm.c:329-435 | The context after a and then b octets is the context after a+b octets |
| `AesIcm.EncryptedTwice` | jni/srtp/sources/crypto/cipher/aes_icm.c:329-435 | Encrypting again from the same start restores the data |
| `AesIcm.CounterAfter` | jni/srtp/sources/crypto/cipher/aes_icm.c:286-309 | n octets step the 16-bit counter once a block that is begun, and change nothing else in it |
| `AesIcm.KeyOctetIs` | jni/srtp/sources/crypto/cipher/aes_icm.c:329-435 | Octet n of the keystream is what is left in the buffer, and from then on octet j modulo 16 of the enciphered block whose counter is j/16 further on |
| `AesIcm.GuardSplits` | jni/srtp/sources/crypto/cipher/aes_icm.c:336-338 | Every cut of a request that passes the guard passes as well if and only if octets plus blocks stay below 2^32; then the block counter does not wrap |
| `AesIcm.CallsSplit` | jni/srtp/sources/crypto/cipher/aes_icm.c:329-435 | Streaming: if one call over a and b passes and octets plus blocks are below 2^32, then a call over a and one over b on the context it leaves pass as well, with the same octets and the same final context |
| `AesIcm.GuardWraps` | jni/srtp/sources/crypto/cipher/aes_icm.c:336-338 | The 32-bit sum in the guard wraps: 2^32-1 octets pass after one block, 65535 do not |
| `Srtp.CounterBlockInjective` | jni/srtp/sources/srtp/srtp.c:694-729 | SSRC, 48-bit packet index and block counter map injectively to the counter block (section 4.1.1 of RFC 3711) |
| `Srtp.NoBlockTwice` | jni/srtp/sources/srtp/srtp.c:694-729 | Over any run of packets under one key in which no index comes twice with one SSRC, no counter block comes twice |
| `Srtp.NoBlockTwiceInCalls` | jni/srtp/sources/srtp/srtp.c:571-808 | After any sequence of successful calls on one key that never repeats an index under one SSRC, the trace of the cipher holds no block twice |
| `Srtp.TraceGrows` | jni/srtp/sources/srtp/srtp.c:694-808 | A successful call extends the trace by the blocks of its packet |
| `Srtp.RunIsPacket` | jni/srtp/sources/crypto/cipher/aes_icm.c:329-435 | The blocks that one packet makes the counter run through are those of its SSRC and index |
| `Srtp.ShiftedIndexIs` | jni/srtp/sources/srtp/srtp.c:714-725 | Shifting the 64-bit index by 16 leaves its low 48 bits, big-endian, before two zero octets |
| `SrtpWire.IvIs` | jni/srtp/sources/srtp/srtp.c:711-725 | As a number the IV is SSRC * 2^64 + index * 2^16 (section 4.1.1 of RFC 3711) |
| `SrtpWire.PayloadFollowsHeader` | jni/srtp/sources/srtp/srtp.c:666-679 | For a header built from its fields, with up to 15 sources and any extension, the encrypted portion is just what follows it, and the SSRC is that of the header |
| `SrtpWire.ProtectedOctet` | jni/srtp/sources/srtp/srtp.c:694-778 | Every octet of the header stays as it was, and octet j of the payload is combined with octet j modulo 16 of the enciphered counter block j/16 of the packet |
| `SrtpWire.RolloverIs` | jni/srtp/sources/srtp/srtp.c:743-750 | The four octets behind the packet in the tag are the rollover counter: bits 16 to 47 of the index |
| `SrtpWire.RefusedIff` | jni/srtp/sources/srtp/srtp.c:980-1005 | A packet fails authentication if and only if the stream authenticates and its last octets are not the truncated digest of all octets before them and the rollover counter |
| `SrtpWire.SameTagSameDigest` | jni/srtp/sources/srtp/srtp.c:980-1005 | Two packets that are accepted with one tag have one truncated digest, and are one packet under one rollover counter if its inputs are the same |
| `SrtpWire.SentTag` | jni/srtp/sources/srtp/srtp.c:780-800 | What is written behind the packet is the truncated digest of all its octets and the rollover counter |
| `Srtp.SrtpStream.SrtpProtect` | jni/srtp/sources/srtp/srtp.c:571-808 | The packet becomes the protected packet with its tag appended, or a status says why not and it stays as it is; enciphered blocks are added to the trace of the key |
| `Srtp.SrtpStream.SrtpUnprotect` | jni/srtp/sources/srtp/srtp.c:811-1086 | The packet becomes the opened one, or fails authentication, or is refused by length or index, each exactly when the specification says so |
| `Srtp.UnprotectRestores` | jni/srtp/sources/srtp/srtp.c:658-1086 | For an agreed index and any CSRC count and extension that fits, unprotecting a protected packet at the front of a buffer succeeds and restores bytes and length, whatever lies behind it |
| `Srtp.ProtectThenUnprotect` | jni/srtp/sources/srtp/srtp.c:571-1086 | The two calls on one buffer, at ends that agree: when the first succeeds the second does, and the packet and its length are back |
| `Srtp.UnprotectInverts` | jni/srtp/sources/srtp/srtp.c:927-1086 | It does so if and only if the stream authenticates or has no tag length: otherwise the tag that was never written is cut off |
| `Srtp.SettersRestore` | jni/srtp/sources/srtp/srtp.c:1345-1422 | The policies of all the setters are of the kind that is restored |
| `AesCbc.AesCbcCtx.AesCbcEncrypt` | jni/srtp/sources/crypto/cipher/aes_cbc.c:149-197 | Cipher block chaining in place, block for block, and the chaining state is the last cipher block; other lengths are refused without effect |
| `AesCbc.AesCbcCtx.AesCbcDecrypt` | jni/srtp/sources/crypto/cipher/aes_cbc.c:199-259 | Unchaining in place from the IV; other lengths are refused without effect |
| `AesCbc.AesCbcCtx.AesCbcNistEncrypt` | jni/srtp/sources/crypto/cipher/aes_cbc.c:262-295 | Marker padding and chaining; one zero is written behind the padded end, and nothing after it |
| `AesCbc.AesCbcCtx.AesCbcNistDecrypt` | jni/srtp/sources/crypto/cipher/aes_cbc.c:298-328 | Unchaining and the search from the end: the length is that before the last marker; without a marker the search leaves the data, and other lengths are refused without effect |
| `AesCbc.CbcIsChained` | jni/srtp/sources/crypto/cipher/aes_cbc.c:149-197 | Every block is combined with the cipher block before it, the first one with the IV, and enciphered (section 6.2 of NIST SP 800-38A) |
| `AesCbc.PaddedIs` | jni/srtp/sources/crypto/cipher/aes_cbc.c:262-295 | One octet 160 and the fewest zeros that make whole blocks stand behind the data |
| `AesCbc.ScanStopsIff` | jni/srtp/sources/crypto/cipher/aes_cbc.c:315-322 | The search backwards stops inside the data if and only if there is a marker, and then right behind what was padded |
| `AesCbc.CbcInverts` | jni/srtp/sources/crypto/cipher/aes_cbc.c:149-259 | Unchaining undoes chaining for any number of blocks, given that the block cipher is undone |
| `AesCbc.PaddingInverts` | jni/srtp/sources/crypto/cipher/aes_cbc.c:262-328 | The padding comes off again whatever the data, markers in it included |
| `AesCbc.NistInverts` | jni/srtp/sources/crypto/cipher/aes_cbc.c:262-328 | Padding, chaining, unchaining and unpadding give back the data, of every length |
| `AeXfm.Enc` | jni/srtp/sources/crypto/ae_xfm/xfm.c:185-294 | The tag covers the clear part and the cipher text; the buffer holds the sealed data and nothing else changes; missing arguments are refused |
| `AeXfm.Dec` | jni/srtp/sources/crypto/ae_xfm/xfm.c:296-429 | Opens exactly what is authentic, of whole blocks and holds a marker; the length and the whole buffer for every answer: a bad tag and missing arguments change nothing, other lengths under a good tag lose the tag from the length alone, and the plaintext with its padding stands before the old tag |
| `AeXfm.RefusedIff` | jni/srtp/sources/crypto/ae_xfm/xfm.c:353-396 | Data under the tag of other data is refused if and only if the two tags differ: all of the clear part and of the cipher text goes into it |
| `AeXfm.SealedIs` | jni/srtp/sources/crypto/ae_xfm/xfm.c:236-285 | The padded data in chained blocks, and behind them the tag of the clear part and of those blocks |
| `AeXfm.BareTagOverruns` | jni/srtp/sources/crypto/ae_xfm/xfm.c:353-424 | A bare tag over the clear part is authentic, and the search for its padding leaves the buffer |
| `AeXfm.OpenInverts` | jni/srtp/sources/crypto/ae_xfm/xfm.c:185-429 | What was sealed is accepted and opens to the data |
| `AesModes.AesInverts` | jni/srtp/sources/crypto/cipher/aes.c:1912-1951 | On blocks of octets, AES-128 under any key is undone by its decryption, as chaining asks of its block cipher |
| `AesModes.AesChainRestores` | jni/srtp/sources/crypto/cipher/aes_cbc.c:262-328 | Chaining with AES-128 and marker padding gives back the data, for every key, IV and length |
| `AesModes.AesSealRestores` | jni/srtp/sources/crypto/ae_xfm/xfm.c:185-429 | What is sealed with AES-128 is accepted and opens to the data, for every key |
| `Lpc.Autocorrelate` | jni/codec2/sources/lpc.c:65-79 | Every lag is the sum of products of samples that far apart |
| `Lpc.LevinsonDurbin` | jni/codec2/sources/lpc.c:123-156 | The loops over the two-dimensional array compute the predictor of the recursion, also past an infinite quotient, which is clamped; the coefficients are no numbers exactly when nothing was divided by nothing |
| `LevinsonSpec.SolvesExactlyUnlessClamped` | jni/codec2/sources/lpc.c:123-156 | On all autocorrelations: every order solves its normal equations if and only if no reflection coefficient was clamped on the way, and then the recursion of the energy is the prediction error |
| `LevinsonSpec.StepSolves` | jni/codec2/sources/lpc.c:137-151 | One step that is not clamped takes a solution of order i-1 to a solution of order i |
| `LevinsonSpec.ClampFails` | jni/codec2/sources/lpc.c:142-143 | A clamped step leaves the last equation of its order unsolved |
| `LevinsonSpec.ClampExample` | jni/codec2/sources/lpc.c:142-143 | With R = [1, 2] nothing is divided by nothing, the coefficient is clamped and the equation not solved |
| `Lpc.FrameNeverClamps` | jni/codec2/sources/lpc.c:65-156 | On the autocorrelation of a frame that is not silent the recursion never divides by zero, never clamps, and solves every order |
| `Lpc.DefiniteIffSounds` | jni/codec2/sources/lpc.c:65-156 | From order 1 on, the recursion on the autocorrelation of a frame gives numbers if and only if the frame is not silent |
| `Lpc.EnergyPositive` | jni/codec2/sources/lpc.c:65-156 | Whatever solves its equations on such a frame leaves positive energy |
| `Lpc.ErrorIsEnergy` | jni/codec2/sources/lpc.c:65-156 | The energy is the sum of squares of the prediction error |
| `Lsp.LspToLpc` | jni/codec2/sources/lsp.c:264-324 | An impulse clocked through the delay line leaves in ak[j] the coefficient of the half sum of P(1+y) and Q(1-y), with P and Q the cascades over even and odd line spectrum pairs |
| `LspAngles.PolynomialOfAngles` | jni/codec2/sources/lsp.c:264-324 | In the angles themselves: at every complex point z the coefficients add up to half of (1+z) times the product of 1 - 2 cos(lsp[2i]) z + z^2 plus (1-z) times that over lsp[2i+1] |
| `Lsp.ClockCascade` | jni/codec2/sources/lsp.c:300-314 | One clock takes the delay line from the coefficients at j to those at j+1 in every stage |
| `LspPolynomials.CascadeAt` | jni/codec2/sources/lsp.c:264-324 | At every complex point the cascade of filters is the product of its second order factors |
| `LspPolynomials.CascadePalindrome` | jni/codec2/sources/lsp.c:264-324 | Every cascade reads the same from both ends and starts and ends with 1 |
| `LspInverse.SynthesisAt` | jni/codec2/sources/lsp.c:264-324 | At every complex point the coefficients add up to half of P(1+z) + Q(1-z) |
| `LspInverse.SynthesisCancels` | jni/codec2/sources/lsp.c:264-324 | The coefficient one past the order cancels, and the first one is 1 |
| `Lsp.ChebPolyEva` | jni/codec2/sources/lsp.c:91-123 | The table of Chebyshev values and the loop over it give the Chebyshev series |
| `LspChebyshev.EvaOnCircle` | jni/codec2/sources/lsp.c:91-123 | Wherever x is half of z+1/z, the series on the half coefficients times z^m is the whole palindromic polynomial at z |
| `LspChebyshev.EvaIsSeries` | jni/codec2/sources/lsp.c:91-123 | The series on the scaled half coefficients is the series of the whole palindrome |
| `LspChebyshev.CascadeSeries` | jni/codec2/sources/lsp.c:91-123 | The series of a cascade is the product of 2(x - x_i) over its line spectrum pairs |
| `LspInverse.HalvesDivide` | jni/codec2/sources/lsp.c:161-173 | The recursions divide the symmetric polynomial by 1+y and the antisymmetric one by 1-y without remainder |
| `LspInverse.SearchSeesProducts` | jni/codec2/sources/lsp.c:164-202 | On synthesised coefficients the search evaluates the products over the even and over the odd line spectrum pairs |
| `LspInverse.BracketHoldsRoot` | jni/codec2/sources/lsp.c:215-236 | Where the series does not keep its sign there is a line spectrum pair |
| `LspSearch.BuildHalves` | jni/codec2/sources/lsp.c:164-173 | The loop over two pairs of pointers computes the two half polynomials |
| `LspSearch.DoubleHalves` | jni/codec2/sources/lsp.c:174-181 | All coefficients but the last of each half are doubled |
| `LspSearch.Bisect` | jni/codec2/sources/lsp.c:218-230 | After nb+1 bisections the recorded point is an end of a bracket of width delta/2^(nb+1) whose ends have a product that is not positive |
| `LspSearch.SearchOne` | jni/codec2/sources/lsp.c:198-241 | The grid loop terminates, in the first cell with a change of sign and with a bracket inside it, or because no cell down to -1 has one |
| `LspSearch.LpcToLsp` | jni/codec2/sources/lsp.c:136-251 | The recorded points strictly decrease below 1, belong to P and Q in turn, and each is what nb+1 bisections make of the first cell, counted from the point before, in which the sign changes; the count returned is theirs, and less than all only when no such cell is left or the last bracket reached below -1 |
| `LspSearch.RecordedIsBracketed` | jni/codec2/sources/lsp.c:215-234 | Every recorded point is an end of a bracket of width delta/2^(nb+1) inside its cell, whose ends have a product that is not positive |
| `LspRecovery.ChangeIffOdd` | jni/codec2/sources/lsp.c:215-215 | The test for a change of sign holds exactly when an odd number of line spectrum pairs of the parity lies inside the interval and none on its ends |
| `LspRecovery.PairInBracket` | jni/codec2/sources/lsp.c:198-241 | The search for the next pair, if that is not on its grid and no other of its parity within delta, ends in a bracket that holds this pair |
| `LspRecovery.RecoversIff` | jni/codec2/sources/lsp.c:136-324 | The whole run on synthesised coefficients: pairs in (-1,1), more than delta apart within a parity and more than delta/2^(nb+1) from their neighbours, are all found, each to within delta/2^(nb+1), if and only if none of them is a point of the grid of its search, which goes on from the point recorded before |
| `LspForetold.RecordsPoint` | jni/codec2/sources/lsp.c:198-241 | What the search records for the next pair is a function of the pair, the start, delta and nb: every bisection goes to the side of the pair |
| `LspForetold.StartIsFrom` | jni/codec2/sources/lsp.c:187-242 | Up to the first pair on its grid, every search starts at the point computed from the pairs before it |
| `LspForetold.OnGridIff` | jni/codec2/sources/lsp.c:200-216 | Whether a pair is any of the infinitely many points of a grid is decided at the one cell that a quotient gives |
| `LspForetold.RecoversIffForetold` | jni/codec2/sources/lsp.c:136-324 | The condition on the pairs, delta and nb alone, to be evaluated before either call: pairs that keep their distances are all found, each to within delta/2^(nb+1), if and only if none is a point of the grid that starts where the pairs before it say |
| `LspRecovery.OffFineRecovers` | jni/codec2/sources/lsp.c:136-324 | A simpler condition, sufficient and not necessary: pairs that keep their distances are all found if none of them is a multiple of delta/2^(nb+1) below 1 |
| `LspForetold.Recover` | jni/codec2/sources/lsp.c:136-324 | The two calls, synthesis and then analysis: for pairs that keep their distances, the points that the analysis records recover them exactly under the condition on the pairs; then point i is within delta/2^(nb+1) of the cosine of angle i |
| `LspRecovery.GridHidesPair` | jni/codec2/sources/lsp.c:215-215 | A pair on a point of the grid is lost: for pairs 0.5 and 0.2 with delta 0.5 nothing is recorded |
| `LspRecovery.CellHidesPairs` | jni/codec2/sources/lsp.c:215-215 | Two pairs of one parity in one cell are lost: for pairs 0.9, 0.85, 0.8, 0.7 with delta 0.5 nothing is recorded |
| `LspRecovery.NeighbourIsPassed` | jni/codec2/sources/lsp.c:219-236 | A close neighbour may lie above the point recorded for the pair before it, from which the search goes on: for pairs 0.8 and 0.78 with delta 0.5 and nb 0 only 0.75 is recorded |
| `Pack.Pack` | jni/codec2/sources/pack.c:47-72 | Slice by slice over octets: the Gray-coded bits are or-ed into exactly the next width bits of the string, highest first, and no other bit changes |
| `Pack.Unpack` | jni/codec2/sources/pack.c:77-105 | The decoded value of exactly the next width bits, in any alignment |
| `Pack.RawOctet` | jni/codec2/sources/pack.c:47-105 | A whole octet of the string reads as itself |
| `Pack.RawSplits` | jni/codec2/sources/pack.c:77-105 | What is read in two goes is one number with the first go on top: the string is a number with its first octet highest |
| `Pack.SliceBit` | jni/codec2/sources/pack.c:58-67 | The cast cuts off written bits only because every slice but the first has the whole octet; the first one needs the field to fit its width |
| `Pack.OneMoreField` | jni/codec2/sources/pack.c:47-72 | One more packed field can be read back, and none of the earlier ones is disturbed |
| `Pack.PackFields` | jni/codec2/sources/codec2.c:184-191 | Any list of fields of 1 to 16 bits in a cleared buffer: every one is held, and the index ends at the sum of the widths |
| `Pack.UnpackFields` | jni/codec2/sources/codec2.c:228-235 | Unpacking the same widths returns every packed value and the same index |
| `Pack.NeighboursOneBit` | jni/codec2/sources/pack.c:55-67 | The packings of v and v+1 in the same place differ in exactly one bit, and which |
| `BitField.UngrayRightIff` | jni/codec2/sources/pack.c:99-104 | The decoding by four shifts is right on all fields of a width if and only if the width is at most 16; the comment in the code says 8 |
| `BitField.UngrayGray` | jni/codec2/sources/pack.c:99-104 | Decoding an encoded word leaves that word combined with itself shifted by 16 |
| `BitField.NeighboursDiffer` | jni/codec2/sources/pack.c:55-56 | The Gray codes of x and x+1 differ in the one bit above the trailing ones of x |
| `Stat.StatTestMonobit` | jni/srtp/sources/crypto/math/stat.c:24-41 | Accepts exactly when the number of ones is from 9725 to 10275, the end points included |
| `StatFips.MonobitAgreesIff` | jni/srtp/sources/crypto/math/stat.c:24-41 | The verdict is that of section 4.9.1 of FIPS 140-2, which excludes the end points, if and only if the number of ones is neither of them |
| `StatFips.MonobitEndPoint` | jni/srtp/sources/crypto/math/stat.c:24-41 | Data with 9725 ones, which the code accepts and the standard does not |
| `StatFips.OnesAreSetBits` | jni/srtp/sources/crypto/math/stat.c:24-41 | The number of ones is how many bits of the string are set |
| `StatFips.OctetOfBits` | jni/srtp/sources/crypto/math/stat.c:97-99 | The bits of an octet are taken from the lowest on |
| `Stat.StatTestPoker` | jni/srtp/sources/crypto/math/stat.c:43-72 | Accepts exactly when the statistic on the nibble frequencies is from 2.16 to 46.17, the end points included |
| `StatFips.PokerAgrees` | jni/srtp/sources/crypto/math/stat.c:43-72 | The verdict is that of section 4.9.1 of FIPS 140-2, which excludes the end points, on all data: the squares of the frequencies add up to an even number, which gives neither of them |
| `StatFips.NibblesAreCounted` | jni/srtp/sources/crypto/math/stat.c:50-55 | The frequency of a nibble is how many of the 2n nibbles, low and high, have its value |
| `Stat.StatTestRuns` | jni/srtp/sources/crypto/math/stat.c:79-184 | Accepts exactly when no run or gap exceeds 25 bits and the numbers of finished maximal runs and gaps of every length class are within the bounds |
| `Stat.RunCounter.Next` | jni/srtp/sources/crypto/math/stat.c:98-162 | The signed run length and the counts of finished runs and gaps are right after every bit, or the run is too long |
| `StatSpec.RunIsMaximal` | jni/srtp/sources/crypto/math/stat.c:86-93 | The run length that is counted is that of the longest run of equal bits that ends there |
| `StatRuns.LastIsLeftOut` | jni/srtp/sources/crypto/math/stat.c:79-184 | The maximal runs of a kind in the data are those the code counts, and the last one if it is of that kind |
| `StatRuns.RunsAgreeIff` | jni/srtp/sources/crypto/math/stat.c:79-184 | The verdict is that of section 4.9.1 of FIPS 140-2 on its intervals, if and only if it does not hang on the last run: all else is well, and the count of its kind is one below the interval or at its upper end |
| `StatRunsExample.LastRunDecides` | jni/srtp/sources/crypto/math/stat.c:79-184 | Data with 210 runs of six ones, the last one at the end, which the code accepts and the standard does not |
| `Stat.StatTestRandSource` | jni/srtp/sources/crypto/math/stat.c:195-351 | Over 50-octet buffers: accepts exactly when the three tests accept the concatenation; an error of the source is returned unless a long run came first |
| `Stat.CountBuffer` | jni/srtp/sources/crypto/math/stat.c:231-312 | Counting one buffer after another counts the concatenation |
| `ProtocolUtils.IntRoundTrip` | src/org/theonionphone/utils/ProtocolUtils.java:32-45 | A size or an SSRC that is written as four octets is read back, for every signed 32-bit number |
| `ProtocolUtils.WriteIntIs` | src/org/theonionphone/utils/ProtocolUtils.java:32-45 | The four octets are the digits of the number modulo 2^32, the highest first |
| `ProtocolUtils.CompareIfIdentical` | src/org/theonionphone/utils/ProtocolUtils.java:12-22 | True exactly for arrays with the same contents |
| `ProtocolUtils.ByteStream.SendMessageWithSizeFirst` | src/org/theonionphone/utils/ProtocolUtils.java:32-45 | The size and then the message go to the end of the stream |
| `ProtocolUtils.ByteStream.ReceiveMessageWithSizeFirst` | src/org/theonionphone/utils/ProtocolUtils.java:63-72 | Whatever message was sent with its size comes back whole, and the rest of the stream stays; what comes back was framed so |
| `ProtocolUtils.ByteStream.ReceiveSpecificMessage` | src/org/theonionphone/utils/ProtocolUtils.java:47-53 | Succeeds exactly when the stream starts with the message, which is then consumed |
| `Handshake.GetFirstKey` | src/org/theonionphone/protocol/KeyExchangeHelper.java:158-164 | Octets 0 to 15 of the digest |
| `Handshake.GetSecondKey` | src/org/theonionphone/protocol/KeyExchangeHelper.java:169-175 | Octets 16 to 31 of the digest |
| `Handshake.RoundUpToMultipleOf4` | src/org/theonionphone/protocol/SrtpProtocol.java:160-165 | The least multiple of 4 that is not less |
| `HandshakeNet.Diamond` | src/org/theonionphone/protocol/TheOnionPhoneProtocol.java:51-186 | A move of one end neither hinders nor changes a possible move of the other |
| `HandshakeNet.AnyMove` | src/org/theonionphone/protocol/TheOnionPhoneProtocol.java:51-186 | Whoever moves first, the end that one exchange reaches stays in reach of every other one, one step nearer |
| `HandshakeExchange.Opening` | src/org/theonionphone/protocol/TheOnionPhoneProtocol.java:51-186 | Hello, version, introduction and request lead both ends to the point where it rings, for all flags |
| `HandshakeExchange.RingPhase` | src/org/theonionphone/protocol/TheOnionPhoneProtocol.java:125-142 | Any number of waiting messages is skipped, and then the answer is read |
| `HandshakeExchange.KeysPhase` | src/org/theonionphone/protocol/KeyExchangeHelper.java:32-70 | Both ends send first and still read each other whole: they hold the digest of one secret |
| `HandshakeExchange.SrtpPhase` | src/org/theonionphone/protocol/SrtpProtocol.java:30-86 | Each end receives the SSRC and salt that the other one sends |
| `HandshakeExchange.Canonical` | src/org/theonionphone/protocol/TheOnionPhoneProtocol.java:51-298 | With any number of waiting messages the exchange ends as the call must: with both sessions, with a rejection, or with the caller breaking off on an unexpected key |
| `HandshakeTranscript.CallerTranscript` | src/org/theonionphone/protocol/TheOnionPhoneProtocol.java:51-142 | Message by message and octet by octet, what the caller of an accepted call sends and reads, for all flags and any number of waiting messages, until it holds its session |
| `HandshakeTranscript.CalleeTranscript` | src/org/theonionphone/protocol/TheOnionPhoneProtocol.java:144-298 | The same for the callee |
| `HandshakeCalls.StepKeeps` | src/org/theonionphone/protocol/TheOnionPhoneProtocol.java:300-324 | Every step of caller, callee or worker keeps the invariant that the call is on course |
| `HandshakeCalls.NoWrongMessage` | src/org/theonionphone/protocol/TheOnionPhoneProtocol.java:51-324 | In every state of every interleaving each read so far took one whole message of the kind it was meant to take, and an end gives up only on a rejection or on an unexpected key |
| `HandshakeCalls.Progress` | src/org/theonionphone/protocol/TheOnionPhoneProtocol.java:51-324 | In every reachable state some step is possible, until the call is at its end |
| `HandshakeCalls.FinishedRight` | src/org/theonionphone/protocol/TheOnionPhoneProtocol.java:51-324 | An end that has finished holds the one session that belongs to the call: the digest of the shared secret is the sending and then the receiving key of the caller, 16 octets each, and of the callee the other way round, with both SSRCs and salts |
| `HandshakeCalls.Agreement` | src/org/theonionphone/protocol/SrtpProtocol.java:30-86 | When both have finished, what each end receives with (SSRC, key, salt) is what the other one sends with, proved identities are known, and no octet is left over |
| `HandshakeCalls.StepsLeft` | src/org/theonionphone/protocol/TheOnionPhoneProtocol.java:51-324 | The number of steps the two ends still have to take is bounded in every reachable state, and every step of theirs, in whatever order, brings it down by one |
| `HandshakeSafety.SafeIff` | src/org/theonionphone/protocol/TheOnionPhoneProtocol.java:279-324 | Every interleaving of a call is framed if and only if the answer cannot fall between the test of the running flag and the sending of the worker, or the call is rejected |
| `HandshakeSafety.RejectedFramed` | src/org/theonionphone/protocol/TheOnionPhoneProtocol.java:295-324 | A waiting message behind a rejection is never read |
| `HandshakeCalls.WrongRead` | src/org/theonionphone/protocol/TheOnionPhoneProtocol.java:311-323 | When it can, the caller may read the start of a waiting message as the size of a key: 0x57616974 |

## Left out

- Floating point: floats are exact reals, `cos` and `acos` are parameters, and the laws of the
  twiddle table (angles add, modulus one, n steps make one turn and fewer do not, a quarter
  turn is -i or i) are taken as given; that the C library tabulates it so is not proved.
- Lpc.LevinsonDurbin: leaves the coefficients unsaid where the original makes them no numbers
  by dividing zero by zero, which real numbers do not have; it says when that is so.
- LspRecovery.RecoversIff: speaks of coefficients that come from a synthesis, since for others
  there need not be real roots in the interval.
- AesIcm.AesIcmCtx.AesIcmEncrypt: positioning the stream (`aes_icm_set_octet`) and the ISMAcryp
  variant, which has no guard, are not modelled.
- AesCbc.AesCbcCtx.AesCbcNistDecrypt: stops with a status of its own where the search of the
  original would leave the buffer, since nothing is defined from there on; so does `AeXfm.Dec`,
  also for data shorter than a tag, whose length the original does not look at.
- Srtp.SrtpStream.SrtpProtect: the replay database, the key limit and the keyed tag function are
  parameters; the lookup of streams, the template stream, the universal-hash prefix and the
  authentication-only and control packet entries, and the events of collisions and limits are not
  modelled.
- The methods of counter mode, chaining and packets take the block cipher and the tag as
  functions; `AesModes` joins the chaining to AES-128, while the tag stays any function.
- Aes.AesEncrypt: the little-endian table variant alone; the table U4 is not generated.
- `octet_get_weight`: its table of 256 entries stands for the number of set bits.
- `aes_128_cbc_hmac_sha1_96_func` and `_inv`, chained calls of `aes_cbc_decrypt`, and
  `srtp_remove_stream`: not inverse pairs, or not relinking, in the original.
- `autocorrelate_freq`, windows, filters and the perceptual stages of the codec: no exact
  specification beyond their text.
- Handshake.InitiateOutgoingSession and Handshake.InitiateIncomingSession: the sequences of the
  two ends are values that remain to be done, not methods on shared streams, because the
  theorems quantify over every interleaving of them.
- Handshake streams: a write puts a whole array on the stream at once and a read blocks until
  all of it is there; broken connections, timeouts and what follows the set-up are not modelled.
- Diffie-Hellman, signatures, SHA-256 and key encodings are functions with the laws that two
  honest ends rely on (`Handshake.Lawful`).
- Memory allocation, Java native glue, audio, Tor, user interface and logging.
