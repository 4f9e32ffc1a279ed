# SM4 cipher engine — a Dafny model

This project models the SM4 engine of `code/sm4.c`. It covers four layers:

- **Block cipher (GB/T 32907-2016):** the S-box, FK and CK tables, the round function layer (tau, L, L', T, T', round_f), the key expansion, and 32-round encryption and decryption.
- **Modes of operation (NIST SP 800-38A):** ECB, CBC, CFB, OFB and CTR over a byte buffer of any length. A trailing partial block is treated as the source treats it:
  - ECB and CBC copy it unencrypted;
  - CFB, OFB and CTR XOR it with the leading bytes of one more keystream block.
- **PKCS#7 padding:** `pkcs7_pad` and the lenient `pkcs7_unpad`, which hands back the whole length when the padding is not valid.
- **Wrappers:** the pad-then-encrypt and decrypt-then-unpad functions that `DEFINE_PKCS7_FN` generates for each mode.

Bytes are `bv8` and words `bv32`, so the 32-bit rotations and shifts are modelled exactly. Buffers are `seq<bv8>`. `Block` is a 16-byte sequence, and `RoundKeys` (the `rk` array of an `sm4_context`) is a 32-word sequence.

The modes are written for any block cipher given as a pair of functions (`Modes.Cipher`). `Modes.Sm4(rk)` is the SM4 instance, and `Modes.Sm4Inverse` proves that its two halves are inverse permutations. The mode round-trips need exactly that fact. CFB, OFB and CTR only ever use the forward transform, so they need nothing.

Module layout, following the source:

- `bytes.dfy`: byte and word vocabulary.
- `tables.dfy`: constant tables.
- `round.dfy`: tau through round_f.
- `block_cipher.dfy`: `sm4_encrypt` and `sm4_decrypt`.
- `key_schedule.dfy`: `sm4_key_schedule`.
- `known_answer.dfy`: the Appendix A example.
- `counter.dfy`: the CTR counter.
- `modes.dfy`: the five modes.
- `mode_laws.dfy`: block equations, round trips and keystreams.
- `padding.dfy`: PKCS#7 padding.
- `pkcs7_modes.dfy`: the wrappers.
- `in_place.dfy`: CBC and CFB decryption over one array.

`sm4_ofb_decrypt` and `sm4_ctr_decrypt` are used by the wrappers but not defined in `code/sm4.c`. The model takes them to be `sm4_ofb_encrypt` and `sm4_ctr_encrypt`, which is an assumption. `ModeLaws.OfbInvolution` and `ModeLaws.CtrInvolution` show that this choice decrypts.

## Model

| member | source | states |
|---|---|---|
| Round.RotlRotates | code/sm4.c:7 | the shift pair of ROTL32 is the circular left rotation for every amount used (2, 10, 18, 24, 13, 23) |
| Round.Tau | code/sm4.c:37-40 | each of the four big-endian bytes of tau(x) is the S-box image of the same byte of x |
| Round.RoundFInvolution | code/sm4.c:47-49 | round_f is a Feistel step: re-applying it with the same key and the other three words reversed restores x0 |
| Bytes.PackWord | code/sm4.c:66 | the big-endian load of four bytes gives a word whose bytes, most significant first, are those four bytes |
| BlockCipher.LoadStore | code/sm4.c:64-77 | writing a state out as 16 bytes and loading it again gives the same four words |
| BlockCipher.StoreLoad | code/sm4.c:64-77 | loading a block into words and writing them out gives the same 16 bytes |
| BlockCipher.EncRoundsInOrder | code/sm4.c:67-70 | the first n iterations of the encryption loop apply rk[0..n-1] in order |
| BlockCipher.DecRoundsReversed | code/sm4.c:83-86 | the first n iterations of the decryption loop apply the first n keys of the reversed key array |
| BlockCipher.RoundsUndo | code/sm4.c:67-70 | for a Feistel round function, the rounds under the reversed keys undo the rounds, up to the reverse transform R |
| BlockCipher.DecryptIsReversedKeyEncrypt | code/sm4.c:64-94 | for any round function, decryption equals encryption with the round keys reversed |
| BlockCipher.DecryptEncryptWith | code/sm4.c:64-94 | for any Feistel round function and any 32 round keys, decryption inverts encryption |
| BlockCipher.EncryptDecryptWith | code/sm4.c:64-94 | ... and encryption inverts decryption, so each key gives a permutation of blocks |
| BlockCipher.DecryptEncrypt | code/sm4.c:64-94 | sm4_decrypt(sm4_encrypt(B, rk), rk) == B for every block and every round-key array |
| BlockCipher.EncryptDecrypt | code/sm4.c:64-94 | sm4_encrypt(sm4_decrypt(B, rk), rk) == B |
| BlockCipher.DecryptIsEncryptReversed | code/sm4.c:64-94 | sm4_decrypt under rk equals sm4_encrypt under rk reversed |
| BlockCipher.RevRev | code/sm4.c:67-83 | reversing the key order twice gives the original order back, so the two loop directions are mutually reverse |
| BlockCipher.RevSnoc | code/sm4.c:83 | the decryption loop's first key is the encryption loop's last one: reversing init + [k] gives [k] + reverse(init) |
| BlockCipher.Encrypt | code/sm4.c:64-78 | sm4_encrypt is the big-endian load, the rounds with rk[0], ..., rk[31] in order, and the reversed store |
| BlockCipher.Decrypt | code/sm4.c:80-94 | sm4_decrypt is the same pipeline with the rounds taking rk[31], ..., rk[0] |
| KeyExpansion.InitialWords | code/sm4.c:53-56 | K[0..3] are four words; undoing the xor with FK[i] and writing K[i] out big-endian gives back key bytes 4i..4i+3 |
| KeyExpansion.Expand | code/sm4.c:57-61 | after n iterations of the expansion loop, n + 4 words of K are known |
| KeyExpansion.ExpandRecurrence | code/sm4.c:57-61 | K starts with the given four words, and every later word satisfies K[i+4] = K[i] ^ T'(K[i+1] ^ K[i+2] ^ K[i+3] ^ CK[i]) |
| KeyExpansion.KeyWords | code/sm4.c:52 | the expansion fills exactly the 36 words of K |
| KeyExpansion.KeySchedule | code/sm4.c:51-62 | the round keys, placed after MK ^ FK, satisfy K[i+4] = K[i] ^ T'(K[i+1] ^ K[i+2] ^ K[i+3] ^ CK[i]) for i in 0..31 |
| KeyExpansion.KeyScheduleRecurrence | code/sm4.c:51-62 | for a key: K[0..3] = MK ^ FK, K[i+4] follows the recurrence for i in 0..31, and round key i is K[i+4] |
| KnownAnswer.KeyScheduleOfKey | code/sm4.c:237 | the 32 round keys of the test key are those listed in Appendix A.1 of GB/T 32907-2016 |
| KnownAnswer.EncryptKnownAnswer | code/sm4.c:237-240 | the test key and plaintext encrypt to 681EDF34D206965E86B3E94F536E4246, the standard's example ciphertext |
| Counter.Increment | code/sm4.c:194 | the carry loop keeps the counter's width; Counter.IncrementValue gives its value |
| Counter.BeValueBound | code/sm4.c:194 | an n-byte counter read big-endian is below 256^n |
| Counter.IncrementValue | code/sm4.c:194 | the carry loop adds one to the big-endian value and wraps to 0 exactly at 256^n |
| Counter.IncrementAllOnes | code/sm4.c:194 | a counter of all 0xFF bytes of any width wraps to all zero bytes |
| Counter.CounterWraps | code/sm4.c:194 | sixteen 0xFF bytes increment to sixteen 0x00 bytes |
| Modes.Sm4Inverse | code/sm4.c:64-94 | SM4 under any round keys is a pair of inverse block permutations, as the mode round-trips require |
| Modes.TailStart | code/sm4.c:98 | full*16 lies within len, is block aligned, and leaves fewer than 16 tail bytes |
| Modes.EcbEncrypt | code/sm4.c:96-101 | ECB encryption has the input's length and copies the last len % 16 bytes unchanged |
| Modes.EcbDecrypt | code/sm4.c:103-108 | ECB decryption has the input's length and copies the last len % 16 bytes unchanged |
| Modes.CbcEncrypt | code/sm4.c:110-120 | CBC encryption has the input's length and copies the last len % 16 bytes unchanged |
| Modes.CbcDecrypt | code/sm4.c:122-136 | CBC decryption has the input's length and copies the last len % 16 bytes unchanged |
| Modes.CfbEncrypt | code/sm4.c:138-149 | CFB encryption writes exactly len bytes |
| Modes.CfbDecrypt | code/sm4.c:151-171 | CFB decryption writes exactly len bytes |
| Modes.OfbEncrypt | code/sm4.c:173-184 | OFB writes exactly len bytes |
| Modes.CtrEncrypt | code/sm4.c:186-196 | CTR writes exactly len bytes |
| ModeLaws.EcbEncryptBlocks | code/sm4.c:99 | block i of the ECB ciphertext is the encryption of block i of the input |
| ModeLaws.EcbDecryptBlocks | code/sm4.c:106 | block i of the ECB plaintext is the decryption of block i of the input |
| ModeLaws.EcbRoundTrip | code/sm4.c:96-108 | ECB decryption inverts ECB encryption for every length, tail included |
| ModeLaws.EcbRoundTripInverse | code/sm4.c:96-108 | ECB encryption inverts ECB decryption for every length |
| ModeLaws.CbcEncryptBlocks | code/sm4.c:113-118 | C_i = E(P_i xor C_{i-1}), with the IV as C_{-1} |
| ModeLaws.CbcDecryptBlocks | code/sm4.c:125-134 | P_i = D(C_i) xor C_{i-1}, with the IV as C_{-1} and C_{i-1} read from the input |
| ModeLaws.CbcRoundTrip | code/sm4.c:110-136 | CBC decryption with the same IV inverts CBC encryption for every length |
| ModeLaws.CbcRoundTripInverse | code/sm4.c:110-136 | CBC encryption with the same IV inverts CBC decryption for every length |
| ModeLaws.CfbEncryptBlocks | code/sm4.c:141-145 | C_i = P_i xor E(C_{i-1}), with the IV as C_{-1} |
| ModeLaws.CfbEncryptTail | code/sm4.c:146-148 | the last len % 16 bytes of the CFB ciphertext are the input tail xored with the leading bytes of E(last full ciphertext block), or of E(IV) when there is no full block |
| ModeLaws.CfbDecryptBlocks | code/sm4.c:154-164 | P_i = C_i xor E(C_{i-1}), with C_{i-1} read from the input |
| ModeLaws.CfbRoundTrip | code/sm4.c:138-171 | CFB decryption inverts CFB encryption for every length, including the partial tail; no property of the cipher is needed |
| ModeLaws.CfbRoundTripInverse | code/sm4.c:138-171 | CFB encryption inverts CFB decryption for every length |
| ModeLaws.OfbKeystream | code/sm4.c:176-183 | the OFB keystream has the requested length |
| ModeLaws.OfbKeystreamBlocks | code/sm4.c:176-180 | block i of the OFB keystream is the IV encrypted i + 1 times |
| ModeLaws.OfbKeystreamTail | code/sm4.c:181-183 | the last len % 16 bytes of the OFB keystream are the leading bytes of the IV encrypted full + 1 times, full being the number of whole blocks |
| ModeLaws.OfbIsKeystreamXor | code/sm4.c:173-184 | OFB output is the input xored with a keystream that depends only on the cipher, the IV and the length |
| ModeLaws.OfbInvolution | code/sm4.c:173-184 | applying OFB twice with the same IV gives the input back |
| ModeLaws.CtrKeystream | code/sm4.c:189-195 | the CTR keystream has the requested length |
| ModeLaws.CtrKeystreamBlocks | code/sm4.c:189-195 | block i of the CTR keystream is the encryption of the counter incremented i times |
| ModeLaws.CtrKeystreamTail | code/sm4.c:189-194 | the last, shorter chunk of the CTR keystream is the leading bytes of the encryption of the counter incremented once per whole block before it |
| ModeLaws.NextValue | code/sm4.c:194 | one counter update is +1 modulo 2^128 on the big-endian value |
| ModeLaws.CounterValue | code/sm4.c:187-195 | the counter of block i is the IV plus i modulo 2^128, read big-endian |
| ModeLaws.CtrLastChunk | code/sm4.c:191-192 | a last chunk of up to 16 bytes is xored with the leading bytes of the encrypted counter |
| ModeLaws.CtrIsKeystreamXor | code/sm4.c:186-196 | CTR output is the input xored with the counter keystream, independent of the input |
| ModeLaws.CtrInvolution | code/sm4.c:186-196 | applying CTR twice from the same counter gives the input back |
| Padding.PadLength | code/sm4.c:201 | the pad count is in 1..16 and brings the length to a multiple of 16 |
| Padding.PadLengthUnique | code/sm4.c:201 | it is the only count in 1..16 that does so, so aligned input gets a full block of padding |
| Padding.Pad | code/sm4.c:200-207 | the output is a multiple of 16, 1 to 16 bytes longer, starts with the input, and every added byte equals the number added |
| Padding.TrailerMatchesAll | code/sm4.c:211 | the check loop accepts exactly when all of the last pad bytes equal pad |
| Padding.Unpad | code/sm4.c:208-213 | the result is shorter than the buffer iff the buffer ends in valid padding; then it is the length minus the pad byte, otherwise the full length |
| Padding.UnpadPad | code/sm4.c:200-213 | unpadding a padded buffer returns the original length, so the original data is its prefix |
| Padding.UnpadAsWritten | code/sm4.c:208-213 | as written, the first out-of-bounds read is always buf[-1], and any returned length lies in 0..buf_len |
| Padding.UnpadReadsOutside | code/sm4.c:208-213 | as written, unpadding [0x02] reads buf[-1], and so does unpadding an empty buffer |
| Padding.ScanInBounds | code/sm4.c:211-212 | with the pad byte within the buffer, the loop as written stays in bounds and agrees with the checked loop |
| Padding.ScanOutOfBounds | code/sm4.c:211 | with the pad byte beyond the buffer, the loop as written reads buf[-1] iff every byte equals pad |
| Padding.UnpadAsWrittenAgrees | code/sm4.c:208-213 | as written, unpad reads out of bounds iff the buffer is empty or consists only of a pad byte 1..16 larger than its length; otherwise it returns what Padding.Unpad returns |
| Pkcs7Modes.ModeEncrypt | code/sm4.c:219 | every mode's encryption keeps the buffer length |
| Pkcs7Modes.ModeDecrypt | code/sm4.c:224 | every mode's decryption keeps the buffer length |
| Pkcs7Modes.ModeRoundTrip | code/sm4.c:219-224 | for each of the five modes, decryption (OFB and CTR: the encrypt function) inverts encryption |
| Pkcs7Modes.Pkcs7Encrypt | code/sm4.c:216-222 | the returned length is a multiple of 16 and 1 to 16 more than the input length |
| Pkcs7Modes.Pkcs7Decrypt | code/sm4.c:223-226 | the whole buffer is decrypted in the mode; the returned length is below the input length iff the decrypted buffer ends in valid padding, is then the input length minus the last byte, and is otherwise the input length |
| Pkcs7Modes.Pkcs7RoundTrip | code/sm4.c:215-232 | decrypting the wrapper's ciphertext returns the plaintext length, with the padded plaintext in the buffer and the plaintext in front |
| Pkcs7Modes.TestVector | code/sm4.c:235-242 | what test_sm4 computes: 32 bytes starting with the standard's ciphertext, and decryption returns length 16 with the test vector in front |
| InPlace.XorInto | code/sm4.c:168-169 | the written range holds the original input bytes xored with the keystream, and the bytes before and after it are unchanged, even when out is in |
| InPlace.CopyInto | code/sm4.c:135 | the tail memcpy copies the original input bytes, even when out is in, and leaves the other bytes alone |
| InPlace.CbcStep | code/sm4.c:126-133 | one loop iteration extends the correct output by block i, keeps the unread input, and makes the saved ciphertext block the next feedback |
| InPlace.CbcDecryptArrays | code/sm4.c:122-136 | the array loop, with out possibly the same array as in, leaves the CBC decryption of the original input in out[..len] and leaves out[len..] alone |
| InPlace.CfbStep | code/sm4.c:155-162 | one loop iteration extends the correct output by block i and makes the saved ciphertext block the next feedback |
| InPlace.CfbDecryptTail | code/sm4.c:165-170 | the last len % 16 bytes of CFB decryption are the input tail xored with E(last full ciphertext block) |
| InPlace.CfbDecryptArrays | code/sm4.c:151-171 | the array loop, with out possibly the same array as in, leaves the CFB decryption of the original input in out[..len] and leaves out[len..] alone |

## Left out

- `code/bmp_crypt.c` (BMP file I/O, command-line parsing, console output) is not part of this model. It only drives the mode functions.
- The `printf` output of `test_sm4`, and `malloc`/`free` in `pkcs7_pad` and the wrappers. Padding is a pure function returning a new sequence. A failed allocation is not modelled.
- Signed `int` lengths. Lengths are `nat`, since a negative length has no meaning for these functions.
- Modes.CtrEncrypt, Padding.Pad, Pkcs7Modes.Pkcs7Encrypt: lengths are unbounded. The source's `int` stops at INT_MAX. `(len+15)` in `sm4_ctr_encrypt` (code/sm4.c:188) and `in_len + pad` in `pkcs7_pad` (code/sm4.c:202) overflow, which is undefined behaviour, for lengths within 16 of INT_MAX. At those lengths the model still returns `len`, or `len + pad`, bytes.
- The `iv` argument of ECB. The source ignores it, so the ECB functions do not take one.
- `sm4_ofb_decrypt` and `sm4_ctr_decrypt`. These are not defined in `code/sm4.c`, and the model assumes they are the corresponding encrypt functions.
- Padding.Unpad: requires a buffer of at least one byte. The source reads `buf[-1]` on an empty buffer. A pad byte larger than the buffer is treated as invalid padding (length returned unchanged). The source does the same unless every byte of the buffer equals that pad byte, in which case it reads before the buffer. Both out-of-bounds paths are modelled separately by `Padding.UnpadAsWritten` (see Findings).
- Pkcs7Modes.Pkcs7Decrypt: requires a ciphertext of at least one byte, for the same reason.
- Pkcs7Modes.ModeRoundTrip, Pkcs7Modes.Pkcs7RoundTrip: state the round trip for any cipher whose two halves are inverse (`Modes.Inverse`). `Modes.Sm4Inverse` supplies this for SM4 under every key.
- InPlace.CbcDecryptArrays, InPlace.CfbDecryptArrays: `out` either is `in` or is disjoint from it. Partially overlapping buffers are not modelled. With `out == in`, the tail `memcpy` of CBC decryption (code/sm4.c:135) is a copy onto itself. C formally leaves that undefined, and the model treats it as a no-op. CFB's tail is a byte-wise xor loop (code/sm4.c:168-169) and has no such issue.
- The same self-`memcpy` happens in the ECB and CBC-encrypt tails (code/sm4.c:100, 107, 119) when they are called in place, as `code/bmp_crypt.c` does. Those modes are modelled as functions on sequences, where the tail is simply kept.
- The other modes are modelled as pure functions only, not as array loops. They read each input byte before writing the output byte at the same position, so aliasing cannot change their result.
- Round.L, Round.Lp, Round.T, Round.Tp, Round.RoundF: carry no row of their own; L, L', T and T' carry no contract, and the one on RoundF only reorders its xor. The property of round_f that the model relies on, that it is a Feistel step undone by re-applying it, is stated by `Round.RoundFInvolution`. Their equations are the source's. `Round.RotlRotates` shows that ROTL32 is the circular rotation, and `Round.Tau` gives the S-box layer. Stating L as an xor of `RotateLeft` terms, or as linear over xor, costs the solver far beyond the resource bound (bit-blasting the rotations). Their values are pinned down on the test vector by `KnownAnswer.KeyScheduleOfKey` and `KnownAnswer.EncryptKnownAnswer`.
- Side channels, IV reuse and the security of the unencrypted ECB/CBC tail are not functional properties and are not modelled.

## Findings

| source | as written | input that shows it | evidently intended | confidence | as-written member | corrected member |
|---|---|---|---|---|---|---|
| code/sm4.c:208-213 | `pkcs7_unpad` reads `buf[buf_len-1]` without checking `buf_len >= 1`, and its loop reads `buf[buf_len-1-i]` for `i` up to `pad-1` without checking `pad <= buf_len` | `buf = {0x02}`, `buf_len = 1`: the pad byte 2 passes the range check, and the second iteration reads `buf[-1]`; `buf_len = 0` reads `buf[-1]` at once | a buffer too short for its pad byte is invalid padding, so the length comes back unchanged | high (not executed) | Padding.UnpadAsWritten, Padding.UnpadReadsOutside, Padding.UnpadAsWrittenAgrees | Padding.Unpad, Padding.UnpadPad |
