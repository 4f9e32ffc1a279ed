/** Byte and word vocabulary shared by every layer of the SM4 model:
    `u8`/`u32` become `bv8`/`bv32`, a block is exactly 16 bytes and a
    buffer is a byte sequence of any length. */
module Bytes {

  type byte = bv8
  type word = bv32

  /** SM4_BLOCK_SIZE */
  const BLOCK_SIZE: nat := 16

  type Block = b: seq<byte> | |b| == BLOCK_SIZE witness seq(16, _ => 0)

  /** Byte-wise exclusive or of two equally long buffers. */
  function Xor(a: seq<byte>, b: seq<byte>): (r: seq<byte>)
    requires |a| == |b|
    ensures |r| == |a|
    ensures forall i :: 0 <= i < |a| ==> r[i] == a[i] ^ b[i]
  {
    seq(|a|, i requires 0 <= i < |a| => a[i] ^ b[i])
  }

  /** XOR with the same pad twice gives the input back. */
  lemma XorInvolution(a: seq<byte>, b: seq<byte>)
    requires |a| == |b|
    ensures Xor(Xor(a, b), b) == a
  {
    assert forall i :: 0 <= i < |a| ==> Xor(Xor(a, b), b)[i] == a[i];
  }

  /** XOR distributes over concatenation of buffers split at the same point. */
  lemma XorAppend(a1: seq<byte>, a2: seq<byte>, b1: seq<byte>, b2: seq<byte>)
    requires |a1| == |b1| && |a2| == |b2|
    ensures Xor(a1 + a2, b1 + b2) == Xor(a1, b1) + Xor(a2, b2)
  {
    assert forall i :: 0 <= i < |a1| + |a2| ==>
      Xor(a1 + a2, b1 + b2)[i] == (Xor(a1, b1) + Xor(a2, b2))[i];
  }

  /** Byte `i` of a word, counting from the most significant (big-endian). */
  function ByteOf(x: word, i: nat): byte
    requires i < 4
  {
    if i == 0 then (x >> 24) as byte
    else if i == 1 then ((x >> 16) & 0xFF) as byte
    else if i == 2 then ((x >> 8) & 0xFF) as byte
    else (x & 0xFF) as byte
  }

  /** The big-endian word of four bytes, as the loads in the source build it. */
  function PackWord(b0: byte, b1: byte, b2: byte, b3: byte): (x: word)
    ensures ByteOf(x, 0) == b0 && ByteOf(x, 1) == b1
    ensures ByteOf(x, 2) == b2 && ByteOf(x, 3) == b3
  {
    (b0 as word << 24) | (b1 as word << 16) | (b2 as word << 8) | b3 as word
  }

  /** A word is determined by its four bytes. */
  lemma PackBytesOf(x: word)
    ensures PackWord(ByteOf(x, 0), ByteOf(x, 1), ByteOf(x, 2), ByteOf(x, 3)) == x
  {
  }
}
