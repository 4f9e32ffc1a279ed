/** sm4_cbc_decrypt and sm4_cfb_decrypt as the loops of sm4.c over
    arrays, where the output array may be the input array itself, as when
    an image is decrypted in place. Each loop saves the ciphertext block
    before it writes the plaintext over it, so decrypting in place gives
    the same bytes as decrypting into a separate buffer. */
module InPlace {
  import opened Bytes
  import opened Modes
  import opened ModeLaws

  /** memcpy of one computed block into out[off..off+16]. */
  method WriteBlock(out: array<byte>, off: nat, blk: Block)
    requires off + BLOCK_SIZE <= out.Length
    modifies out
    ensures out[..off] == old(out[..off])
    ensures out[off..off + BLOCK_SIZE] == blk
    ensures out[off + BLOCK_SIZE..] == old(out[off + BLOCK_SIZE..])
  {
    var j := 0;
    while j < BLOCK_SIZE
      invariant 0 <= j <= BLOCK_SIZE
      invariant forall k :: off <= k < off + j ==> out[k] == blk[k - off]
      invariant forall k :: 0 <= k < out.Length && (k < off || off + j <= k) ==> out[k] == old(out[k])
    {
      out[off + j] := blk[j];
      j := j + 1;
    }
  }

  /** `for (j = 0; j < n; j++) out[off+j] = in[off+j] ^ ks[j];` where `out`
      may be `inp`: each byte is read before the same position is written.
      Used on the tail, so only the bytes in front of it are kept. */
  method XorInto(inp: array<byte>, out: array<byte>, off: nat, ks: seq<byte>)
    requires off + |ks| <= inp.Length && off + |ks| <= out.Length
    modifies out
    ensures out[off..off + |ks|] == Xor(old(inp[off..off + |ks|]), ks)
    ensures out[..off] == old(out[..off])
    ensures out[off + |ks|..] == old(out[off + |ks|..])
  {
    var j := 0;
    while j < |ks|
      invariant 0 <= j <= |ks|
      invariant forall k :: off <= k < off + j ==> out[k] == old(inp[k]) ^ ks[k - off]
      invariant forall k :: 0 <= k < off ==> out[k] == old(out[k])
      invariant forall k :: off + |ks| <= k < out.Length ==> out[k] == old(out[k])
      invariant forall k :: off + j <= k < off + |ks| ==> inp[k] == old(inp[k])
    {
      out[off + j] := inp[off + j] ^ ks[j];
      j := j + 1;
    }
  }

  /** memcpy(out+off, in+off, n) for the unprocessed tail. */
  method CopyInto(inp: array<byte>, out: array<byte>, off: nat, n: nat)
    requires off + n <= inp.Length && off + n <= out.Length
    modifies out
    ensures out[off..off + n] == old(inp[off..off + n])
    ensures out[..off] == old(out[..off])
    ensures out[off + n..] == old(out[off + n..])
  {
    var j := 0;
    while j < n
      invariant 0 <= j <= n
      invariant forall k :: off <= k < off + j ==> out[k] == old(inp[k])
      invariant forall k :: 0 <= k < off ==> out[k] == old(out[k])
      invariant forall k :: off + n <= k < out.Length ==> out[k] == old(out[k])
      invariant forall k :: off + j <= k < off + n ==> inp[k] == old(inp[k])
    {
      assert inp[off + j] == old(inp[off + j]);
      out[off + j] := inp[off + j];
      j := j + 1;
    }
  }

  /** The input bytes after a block written over the output are untouched,
      whether or not the output array is the input array. */
  lemma AfterBlock(inp: seq<byte>, outBefore: seq<byte>, outAfter: seq<byte>, inpAfter: seq<byte>,
                   same: bool, off: nat, len: nat)
    requires off + BLOCK_SIZE <= len <= |inp| && len <= |outBefore| && |outAfter| == |outBefore|
    requires same ==> inp == outBefore && inpAfter == outAfter
    requires !same ==> inpAfter == inp
    requires outAfter[off + BLOCK_SIZE..] == outBefore[off + BLOCK_SIZE..]
    requires |inpAfter| == |inp|
    ensures inpAfter[off + BLOCK_SIZE..len] == inp[off + BLOCK_SIZE..len]
  {
    if same {
      assert inpAfter[off + BLOCK_SIZE..len] == outAfter[off + BLOCK_SIZE..][..len - off - BLOCK_SIZE];
      assert inp[off + BLOCK_SIZE..len] == outBefore[off + BLOCK_SIZE..][..len - off - BLOCK_SIZE];
    }
  }

  /** A buffer that agrees with `expected` before and from `off` agrees
      with it on its first |expected| bytes. */
  lemma Assemble(buf: seq<byte>, expected: seq<byte>, off: nat, len: nat)
    requires off <= len <= |buf| && |expected| == len
    requires buf[..off] == expected[..off] && buf[off..len] == expected[off..]
    ensures buf[..len] == expected
  {
    assert buf[..len] == buf[..off] + buf[off..len];
    assert expected == expected[..off] + expected[off..];
  }

  /** One iteration of the loop of sm4_cbc_decrypt: block i of the
      ciphertext is saved, decrypted and xored with the feedback, and written
      over the output; the saved block is the next feedback. The first
      i + 1 blocks of the output are then those of the decryption, and the
      input after them is untouched even when it is the output array. */
  method CbcStep(c: Cipher, iv: Block, inp: array<byte>, out: array<byte>, len: nat, i: nat,
                   feedback: Block, ghost src: seq<byte>, ghost expected: seq<byte>)
    returns (next: Block)
    requires len <= inp.Length && len <= out.Length && |src| == len && BLOCK_SIZE * (i + 1) <= len
    requires expected == CbcDecrypt(c, iv, src)
    requires out[..BLOCK_SIZE * i] == expected[..BLOCK_SIZE * i]
    requires inp[BLOCK_SIZE * i..len] == src[BLOCK_SIZE * i..]
    requires feedback == Prev(iv, src, i)
    modifies out
    ensures out[..BLOCK_SIZE * (i + 1)] == expected[..BLOCK_SIZE * (i + 1)]
    ensures inp[BLOCK_SIZE * (i + 1)..len] == src[BLOCK_SIZE * (i + 1)..]
    ensures next == Prev(iv, src, i + 1)
    ensures out[len..] == old(out[len..])
  {
    var off := BLOCK_SIZE * i;
    next := inp[off..off + BLOCK_SIZE];
    assert next == inp[off..len][..BLOCK_SIZE] == BlockAt(src, i);
    CbcDecryptBlocks(c, iv, src, i);
    ghost var inpBefore, outBefore := inp[..], out[..];
    WriteBlock(out, off, Xor(c.decrypt(next), feedback));
    AfterBlock(inpBefore, outBefore, out[..], inp[..], inp == out, off, len);
    assert out[..off + BLOCK_SIZE] == out[..off] + out[off..off + BLOCK_SIZE];
    assert expected[..off + BLOCK_SIZE] == expected[..off] + BlockAt(expected, i);
    assert inp[off + BLOCK_SIZE..len] == inpBefore[off + BLOCK_SIZE..len] == inpBefore[off..len][BLOCK_SIZE..];
    assert out[len..] == out[off + BLOCK_SIZE..][len - off - BLOCK_SIZE..];
    assert outBefore[len..] == outBefore[off + BLOCK_SIZE..][len - off - BLOCK_SIZE..];
  }

  /** sm4_cbc_decrypt on arrays: `out` may be `inp`. The first `len` bytes
      of `out` become the CBC decryption of the first `len` bytes `inp`
      held on entry; the bytes of `out` after them are left alone. */
  method CbcDecryptArrays(c: Cipher, iv: Block, inp: array<byte>, out: array<byte>, len: nat)
    requires len <= inp.Length && len <= out.Length
    modifies out
    ensures out[..len] == CbcDecrypt(c, iv, old(inp[..len]))
    ensures out[len..] == old(out[len..])
  {
    ghost var src := inp[..len];
    ghost var expected := CbcDecrypt(c, iv, src);
    var full := len / BLOCK_SIZE;
    var feedback := iv;
    var i := 0;
    while i < full
      invariant 0 <= i <= full
      invariant out[..BLOCK_SIZE * i] == expected[..BLOCK_SIZE * i]
      invariant inp[BLOCK_SIZE * i..len] == src[BLOCK_SIZE * i..]
      invariant feedback == Prev(iv, src, i)
      invariant out[len..] == old(out[len..])
    {
      feedback := CbcStep(c, iv, inp, out, len, i, feedback, src, expected);
      i := i + 1;
    }
    var off := BLOCK_SIZE * full;
    assert off == TailStart(len);
    assert inp[off..len] == src[off..] == expected[off..];
    CopyInto(inp, out, off, len - off);
    Assemble(out[..], expected, off, len);
  }

  /** One iteration of the loop of sm4_cfb_decrypt: block i of the
      ciphertext is saved, xored with the encrypted feedback, and written
      over the output; the saved block is the next feedback. The first
      i + 1 blocks of the output are then those of the decryption, and the
      input after them is untouched even when it is the output array. */
  method CfbStep(c: Cipher, iv: Block, inp: array<byte>, out: array<byte>, len: nat, i: nat,
                   feedback: Block, ghost src: seq<byte>, ghost expected: seq<byte>)
    returns (next: Block)
    requires len <= inp.Length && len <= out.Length && |src| == len && BLOCK_SIZE * (i + 1) <= len
    requires expected == CfbDecrypt(c, iv, src)
    requires out[..BLOCK_SIZE * i] == expected[..BLOCK_SIZE * i]
    requires inp[BLOCK_SIZE * i..len] == src[BLOCK_SIZE * i..]
    requires feedback == Prev(iv, src, i)
    modifies out
    ensures out[..BLOCK_SIZE * (i + 1)] == expected[..BLOCK_SIZE * (i + 1)]
    ensures inp[BLOCK_SIZE * (i + 1)..len] == src[BLOCK_SIZE * (i + 1)..]
    ensures next == Prev(iv, src, i + 1)
    ensures out[len..] == old(out[len..])
  {
    var off := BLOCK_SIZE * i;
    next := inp[off..off + BLOCK_SIZE];
    assert next == inp[off..len][..BLOCK_SIZE] == BlockAt(src, i);
    CfbDecryptBlocks(c, iv, src, i);
    ghost var inpBefore, outBefore := inp[..], out[..];
    WriteBlock(out, off, Xor(next, c.encrypt(feedback)));
    AfterBlock(inpBefore, outBefore, out[..], inp[..], inp == out, off, len);
    assert out[..off + BLOCK_SIZE] == out[..off] + out[off..off + BLOCK_SIZE];
    assert expected[..off + BLOCK_SIZE] == expected[..off] + BlockAt(expected, i);
    assert inp[off + BLOCK_SIZE..len] == inpBefore[off + BLOCK_SIZE..len] == inpBefore[off..len][BLOCK_SIZE..];
    assert out[len..] == out[off + BLOCK_SIZE..][len - off - BLOCK_SIZE..];
    assert outBefore[len..] == outBefore[off + BLOCK_SIZE..][len - off - BLOCK_SIZE..];
  }

  /** sm4_cfb_decrypt on arrays: `out` may be `inp`. The first `len` bytes
      of `out` become the CFB decryption of the first `len` bytes `inp`
      held on entry; the bytes of `out` after them are left alone. */
  method CfbDecryptArrays(c: Cipher, iv: Block, inp: array<byte>, out: array<byte>, len: nat)
    requires len <= inp.Length && len <= out.Length
    modifies out
    ensures out[..len] == CfbDecrypt(c, iv, old(inp[..len]))
    ensures out[len..] == old(out[len..])
  {
    ghost var src := inp[..len];
    ghost var expected := CfbDecrypt(c, iv, src);
    var full := len / BLOCK_SIZE;
    var feedback := iv;
    var i := 0;
    while i < full
      invariant 0 <= i <= full
      invariant out[..BLOCK_SIZE * i] == expected[..BLOCK_SIZE * i]
      invariant inp[BLOCK_SIZE * i..len] == src[BLOCK_SIZE * i..]
      invariant feedback == Prev(iv, src, i)
      invariant out[len..] == old(out[len..])
    {
      feedback := CfbStep(c, iv, inp, out, len, i, feedback, src, expected);
      i := i + 1;
    }
    var off := BLOCK_SIZE * full;
    assert off == TailStart(len);
    if off < len {
      var ks := c.encrypt(feedback)[..len - off];
      CfbDecryptTail(c, iv, src, full);
      XorInto(inp, out, off, ks);
      assert out[off..len] == expected[off..];
    }
    Assemble(out[..], expected, off, len);
  }

  /** The trailing partial block of a CFB decryption is the xor with the
      leading bytes of the encrypted last full ciphertext block (the IV if
      there is none). */
  lemma {:induction false} CfbDecryptTail(c: Cipher, iv: Block, src: seq<byte>, full: nat)
    requires BLOCK_SIZE * full < |src| < BLOCK_SIZE * (full + 1)
    ensures CfbDecrypt(c, iv, src)[BLOCK_SIZE * full..] ==
      Xor(src[BLOCK_SIZE * full..], c.encrypt(Prev(iv, src, full))[..|src| - BLOCK_SIZE * full])
    decreases full
  {
    if full > 0 {
      var ciph: Block := src[..BLOCK_SIZE];
      var rest := src[BLOCK_SIZE..];
      var off, off' := BLOCK_SIZE * full, BLOCK_SIZE * (full - 1);
      assert off' + BLOCK_SIZE == off;
      CfbDecryptTail(c, ciph, rest, full - 1);
      assert src == ciph + rest;
      PrevCons(iv, ciph, rest, full);
      var whole, later := CfbDecrypt(c, iv, src), CfbDecrypt(c, ciph, rest);
      assert whole == Xor(ciph, c.encrypt(iv)) + later;
      assert whole[off..] == later[off'..];
      assert src[off..] == rest[off'..];
    }
  }
}
