/** The five modes of operation of sm4.c over a buffer of any length
    (sections 6.1 to 6.5 of NIST SP 800-38A, CFB in its full-block
    variant), with the tail handling of the source: ECB and CBC copy a
    trailing partial block unencrypted, CFB, OFB and CTR xor it with the
    leading bytes of one more keystream block.

    Each mode is written for any block cipher given as a pair of
    functions; `Sm4` is the instance the source uses, with the round keys
    of an `sm4_context`. The `iv` argument of ECB, which the source ignores,
    is left out. */
module Modes {
  import opened Bytes
  import opened BlockCipher
  import opened Counter

  /** A block cipher under a fixed key: the forward and inverse transforms. */
  datatype Cipher = Cipher(encrypt: Block -> Block, decrypt: Block -> Block)

  /** `decrypt` and `encrypt` are inverse permutations of the blocks. */
  ghost predicate Inverse(c: Cipher) {
    forall b: Block :: c.decrypt(c.encrypt(b)) == b && c.encrypt(c.decrypt(b)) == b
  }

  /** sm4_encrypt / sm4_decrypt under the round keys `rk`. */
  function Sm4(rk: RoundKeys): Cipher {
    Cipher(b => Encrypt(b, rk), b => Decrypt(b, rk))
  }

  /** SM4 under any round keys is a pair of inverse permutations. */
  lemma Sm4Inverse(rk: RoundKeys)
    ensures Inverse(Sm4(rk))
  {
    forall b: Block
      ensures Sm4(rk).decrypt(Sm4(rk).encrypt(b)) == b && Sm4(rk).encrypt(Sm4(rk).decrypt(b)) == b
    {
      DecryptEncrypt(b, rk);
      EncryptDecrypt(b, rk);
    }
  }

  /** Where the trailing partial block starts: 16 * (len / 16). */
  function TailStart(n: nat): (t: nat)
    ensures t <= n && n - t < BLOCK_SIZE && t % BLOCK_SIZE == 0
  {
    n / BLOCK_SIZE * BLOCK_SIZE
  }

  /** The trailing `len % 16` bytes of `out` are those of `inp`. */
  ghost predicate KeepsTail(inp: seq<byte>, out: seq<byte>) {
    |out| == |inp| && out[TailStart(|inp|)..] == inp[TailStart(|inp|)..]
  }

  /** The i-th 16-byte block of `s`. */
  function BlockAt(s: seq<byte>, i: nat): Block
    requires BLOCK_SIZE * (i + 1) <= |s|
  {
    s[BLOCK_SIZE * i .. BLOCK_SIZE * (i + 1)]
  }

  /** `n` applications of `f` to `x`. */
  function Iterate(f: Block -> Block, x: Block, n: nat): Block
    decreases n
  {
    if n == 0 then x else Iterate(f, f(x), n - 1)
  }

  lemma TailStartStep(n: nat)
    requires n >= BLOCK_SIZE
    ensures TailStart(n) == TailStart(n - BLOCK_SIZE) + BLOCK_SIZE
  {
  }

  /** Output of a block-by-block mode: one processed block in front of the
      output for the rest keeps the tail if the rest's output does. */
  lemma KeepsTailCons(inp: seq<byte>, blk: seq<byte>, rest: seq<byte>)
    requires |inp| >= BLOCK_SIZE && |blk| == BLOCK_SIZE
    requires KeepsTail(inp[BLOCK_SIZE..], rest)
    ensures KeepsTail(inp, blk + rest)
  {
    TailStartStep(|inp|);
    var t := TailStart(|inp|);
    assert (blk + rest)[t..] == rest[t - BLOCK_SIZE..];
    assert inp[t..] == inp[BLOCK_SIZE..][t - BLOCK_SIZE..];
  }

  // ECB (sm4.c:96-108)

  /** sm4_ecb_encrypt: each full block through the cipher, the tail copied. */
  function EcbEncrypt(c: Cipher, inp: seq<byte>): (out: seq<byte>)
    ensures KeepsTail(inp, out)
    decreases |inp|
  {
    if |inp| < BLOCK_SIZE then inp
    else
      var rest := EcbEncrypt(c, inp[BLOCK_SIZE..]);
      KeepsTailCons(inp, c.encrypt(inp[..BLOCK_SIZE]), rest);
      c.encrypt(inp[..BLOCK_SIZE]) + rest
  }

  /** sm4_ecb_decrypt */
  function EcbDecrypt(c: Cipher, inp: seq<byte>): (out: seq<byte>)
    ensures KeepsTail(inp, out)
    decreases |inp|
  {
    if |inp| < BLOCK_SIZE then inp
    else
      var rest := EcbDecrypt(c, inp[BLOCK_SIZE..]);
      KeepsTailCons(inp, c.decrypt(inp[..BLOCK_SIZE]), rest);
      c.decrypt(inp[..BLOCK_SIZE]) + rest
  }

  // CBC (sm4.c:110-136)

  /** sm4_cbc_encrypt: each full block xored with the previous ciphertext
      block (first the IV) and encrypted, the tail copied. */
  function CbcEncrypt(c: Cipher, iv: Block, inp: seq<byte>): (out: seq<byte>)
    ensures KeepsTail(inp, out)
    decreases |inp|
  {
    if |inp| < BLOCK_SIZE then inp
    else
      var ct := c.encrypt(Xor(inp[..BLOCK_SIZE], iv));
      var rest := CbcEncrypt(c, ct, inp[BLOCK_SIZE..]);
      KeepsTailCons(inp, ct, rest);
      ct + rest
  }

  /** sm4_cbc_decrypt: each full block decrypted and xored with the
      previous ciphertext block, which is taken from the input. */
  function CbcDecrypt(c: Cipher, iv: Block, inp: seq<byte>): (out: seq<byte>)
    ensures KeepsTail(inp, out)
    decreases |inp|
  {
    if |inp| < BLOCK_SIZE then inp
    else
      var ciph: Block := inp[..BLOCK_SIZE];
      var pt := Xor(c.decrypt(ciph), iv);
      var rest := CbcDecrypt(c, ciph, inp[BLOCK_SIZE..]);
      KeepsTailCons(inp, pt, rest);
      pt + rest
  }

  // CFB (sm4.c:138-171)

  /** sm4_cfb_encrypt: each full block xored with the encrypted feedback,
      which is then the ciphertext block; a tail xored with the leading
      bytes of one more encrypted feedback block. */
  function CfbEncrypt(c: Cipher, iv: Block, inp: seq<byte>): (out: seq<byte>)
    ensures |out| == |inp|
    decreases |inp|
  {
    if |inp| == 0 then []
    else if |inp| < BLOCK_SIZE then Xor(inp, c.encrypt(iv)[..|inp|])
    else
      var ct := Xor(inp[..BLOCK_SIZE], c.encrypt(iv));
      ct + CfbEncrypt(c, ct, inp[BLOCK_SIZE..])
  }

  /** sm4_cfb_decrypt: the feedback is the saved ciphertext block. */
  function CfbDecrypt(c: Cipher, iv: Block, inp: seq<byte>): (out: seq<byte>)
    ensures |out| == |inp|
    decreases |inp|
  {
    if |inp| == 0 then []
    else if |inp| < BLOCK_SIZE then Xor(inp, c.encrypt(iv)[..|inp|])
    else
      var ciph: Block := inp[..BLOCK_SIZE];
      Xor(ciph, c.encrypt(iv)) + CfbDecrypt(c, ciph, inp[BLOCK_SIZE..])
  }

  // OFB (sm4.c:173-184)

  /** sm4_ofb_encrypt: the feedback is the keystream block itself. */
  function OfbEncrypt(c: Cipher, iv: Block, inp: seq<byte>): (out: seq<byte>)
    ensures |out| == |inp|
    decreases |inp|
  {
    if |inp| == 0 then []
    else if |inp| < BLOCK_SIZE then Xor(inp, c.encrypt(iv)[..|inp|])
    else
      var ks := c.encrypt(iv);
      Xor(inp[..BLOCK_SIZE], ks) + OfbEncrypt(c, ks, inp[BLOCK_SIZE..])
  }

  // CTR (sm4.c:186-196)

  /** sm4_ctr_encrypt: chunks of min(16, remaining) bytes xored with the
      encrypted counter, which is incremented after every chunk. */
  function CtrEncrypt(c: Cipher, ctr: Block, inp: seq<byte>): (out: seq<byte>)
    ensures |out| == |inp|
    decreases |inp|
  {
    if |inp| == 0 then []
    else
      var chunk := if |inp| > BLOCK_SIZE then BLOCK_SIZE else |inp|;
      Xor(inp[..chunk], c.encrypt(ctr)[..chunk]) + CtrEncrypt(c, Increment(ctr), inp[chunk..])
  }
}
