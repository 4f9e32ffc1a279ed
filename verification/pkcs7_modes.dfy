/** The ten functions that DEFINE_PKCS7_FN generates in sm4.c: for each
    mode, encryption of the PKCS#7-padded input and decryption followed by
    lenient unpadding. */
module Pkcs7Modes {
  import opened Bytes
  import opened Modes
  import opened ModeLaws
  import opened Padding
  import opened KeyExpansion
  import opened KnownAnswer

  /** The NAME argument of DEFINE_PKCS7_FN. */
  datatype Mode = Ecb | Cbc | Cfb | Ofb | Ctr

  /** sm4_NAME_encrypt; ECB ignores the IV. Every mode fills exactly the
      caller's output buffer of the input's size. */
  function ModeEncrypt(m: Mode, c: Cipher, iv: Block, inp: seq<byte>): (out: seq<byte>)
    ensures |out| == |inp|
  {
    match m
    case Ecb => EcbEncrypt(c, inp)
    case Cbc => CbcEncrypt(c, iv, inp)
    case Cfb => CfbEncrypt(c, iv, inp)
    case Ofb => OfbEncrypt(c, iv, inp)
    case Ctr => CtrEncrypt(c, iv, inp)
  }

  /** sm4_NAME_decrypt; sm4_ofb_decrypt and sm4_ctr_decrypt are taken to
      be the encryption functions, as OFB and CTR are their own inverses. */
  function ModeDecrypt(m: Mode, c: Cipher, iv: Block, inp: seq<byte>): (out: seq<byte>)
    ensures |out| == |inp|
  {
    match m
    case Ecb => EcbDecrypt(c, inp)
    case Cbc => CbcDecrypt(c, iv, inp)
    case Cfb => CfbDecrypt(c, iv, inp)
    case Ofb => OfbEncrypt(c, iv, inp)
    case Ctr => CtrEncrypt(c, iv, inp)
  }

  /** Decryption in a mode undoes encryption in the same mode with the
      same IV. */
  lemma ModeRoundTrip(m: Mode, c: Cipher, iv: Block, p: seq<byte>)
    requires Inverse(c)
    ensures ModeDecrypt(m, c, iv, ModeEncrypt(m, c, iv, p)) == p
  {
    match m
    case Ecb => EcbRoundTrip(c, p);
    case Cbc => CbcRoundTrip(c, iv, p);
    case Cfb => CfbRoundTrip(c, iv, p);
    case Ofb => OfbInvolution(c, iv, p);
    case Ctr => CtrInvolution(c, iv, p);
  }

  /** sm4_NAME_pkcs7_encrypt: the ciphertext of the padded input; its
      length is the value the C function returns. */
  function Pkcs7Encrypt(m: Mode, c: Cipher, iv: Block, inp: seq<byte>): (out: seq<byte>)
    ensures |out| % BLOCK_SIZE == 0 && |inp| < |out| <= |inp| + BLOCK_SIZE
  {
    ModeEncrypt(m, c, iv, Pad(inp))
  }

  /** What sm4_NAME_pkcs7_decrypt leaves behind: the output buffer, all of
      the input's length, and the returned length of the data in it. */
  datatype Decrypted = Decrypted(buffer: seq<byte>, len: nat)

  /** sm4_NAME_pkcs7_decrypt: decrypt the whole input in the mode, then
      unpad. The returned length falls short of the buffer exactly when the
      decrypted buffer ends in valid padding; it is then the length minus
      the pad byte, and otherwise the whole length. */
  function Pkcs7Decrypt(m: Mode, c: Cipher, iv: Block, inp: seq<byte>): (d: Decrypted)
    requires |inp| >= 1
    ensures |d.buffer| == |inp| && d.len <= |inp|
    ensures d.buffer == ModeDecrypt(m, c, iv, inp)
    ensures d.len < |inp| <==> ValidPadding(d.buffer)
    ensures ValidPadding(d.buffer) ==> d.len == |inp| - d.buffer[|inp| - 1] as nat
    ensures !ValidPadding(d.buffer) ==> d.len == |inp|
  {
    var buffer := ModeDecrypt(m, c, iv, inp);
    Decrypted(buffer, Unpad(buffer))
  }

  /** Decrypting what sm4_NAME_pkcs7_encrypt produced gives back the
      plaintext as the leading `len` bytes of the buffer, for every mode. */
  lemma Pkcs7RoundTrip(m: Mode, c: Cipher, iv: Block, p: seq<byte>)
    requires Inverse(c)
    ensures Pkcs7Decrypt(m, c, iv, Pkcs7Encrypt(m, c, iv, p)).len == |p|
    ensures Pkcs7Decrypt(m, c, iv, Pkcs7Encrypt(m, c, iv, p)).buffer == Pad(p)
    ensures Pkcs7Decrypt(m, c, iv, Pkcs7Encrypt(m, c, iv, p)).buffer[..|p|] == p
  {
    ModeRoundTrip(m, c, iv, Pad(p));
    UnpadPad(p);
  }

  /** What test_sm4 computes: the 16-byte vector through the ECB wrapper gives
      32 bytes whose first block is the ciphertext of the standard (the
      second is the encrypted block of padding), and decrypting them
      returns length 16 with the vector in front. */
  lemma TestVector(iv: Block)
    ensures |Pkcs7Encrypt(Ecb, Sm4(KeySchedule(KEY)), iv, KEY)| == 2 * BLOCK_SIZE
    ensures Pkcs7Encrypt(Ecb, Sm4(KeySchedule(KEY)), iv, KEY)[..BLOCK_SIZE] == CIPHERTEXT
    ensures Pkcs7Decrypt(Ecb, Sm4(KeySchedule(KEY)), iv, Pkcs7Encrypt(Ecb, Sm4(KeySchedule(KEY)), iv, KEY)).len == BLOCK_SIZE
    ensures Pkcs7Decrypt(Ecb, Sm4(KeySchedule(KEY)), iv, Pkcs7Encrypt(Ecb, Sm4(KeySchedule(KEY)), iv, KEY)).buffer[..BLOCK_SIZE] == KEY
  {
    var c := Sm4(KeySchedule(KEY));
    var padded := Pad(KEY);
    assert padded[..BLOCK_SIZE] == KEY;
    EcbEncryptBlocks(c, padded, 0);
    assert BlockAt(padded, 0) == KEY;
    EncryptKnownAnswer();
    assert BlockAt(EcbEncrypt(c, padded), 0) == CIPHERTEXT;
    Sm4Inverse(KeySchedule(KEY));
    Pkcs7RoundTrip(Ecb, c, iv, KEY);
  }
}
