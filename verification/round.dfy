/** The round-function layer of SM4 (section 6 of GB/T 32907-2016): the
    non-linear substitution tau, the linear diffusions L and L', and one
    Feistel round. */
module Round {
  import opened Bytes
  import opened Tables

  /** ROTL32(x, n) written with shifts, as the macro does. */
  function Rotl(x: word, n: word): word
    requires 0 < n < 32
  {
    (x << n) | (x >> (32 - n))
  }

  /** The shift pair of ROTL32 is the circular left rotation, for every
      rotation amount the round functions use. */
  lemma RotlRotates(x: word)
    ensures Rotl(x, 2) == x.RotateLeft(2) && Rotl(x, 10) == x.RotateLeft(10)
    ensures Rotl(x, 18) == x.RotateLeft(18) && Rotl(x, 24) == x.RotateLeft(24)
    ensures Rotl(x, 13) == x.RotateLeft(13) && Rotl(x, 23) == x.RotateLeft(23)
  {
  }

  /** Looks a byte up in the S-box. */
  function S(b: byte): byte {
    SBOX[(b >> 4) as int][(b & 0xF) as int]
  }

  /** tau: the S-box applied to each of the four bytes of a word. */
  function Tau(x: word): (r: word)
    ensures ByteOf(r, 0) == S(ByteOf(x, 0)) && ByteOf(r, 1) == S(ByteOf(x, 1))
    ensures ByteOf(r, 2) == S(ByteOf(x, 2)) && ByteOf(r, 3) == S(ByteOf(x, 3))
  {
    PackWord(S(ByteOf(x, 0)), S(ByteOf(x, 1)), S(ByteOf(x, 2)), S(ByteOf(x, 3)))
  }

  /** L, the diffusion of the encryption round. */
  function L(b: word): word {
    b ^ Rotl(b, 2) ^ Rotl(b, 10) ^ Rotl(b, 18) ^ Rotl(b, 24)
  }

  /** L', the diffusion of the key expansion. */
  function Lp(b: word): word {
    b ^ Rotl(b, 13) ^ Rotl(b, 23)
  }

  /** T, the mixer-substitution of the encryption round. */
  function T(x: word): word {
    L(Tau(x))
  }

  /** T', the mixer-substitution of the key expansion. */
  function Tp(x: word): word {
    Lp(Tau(x))
  }

  /** round_f: the new word produced by one round. The mask it xors onto
      x0 depends only on the xor of the other three words and the key, so
      it is the same with those words in reverse order. */
  function RoundF(x0: word, x1: word, x2: word, x3: word, rk: word): (r: word)
    ensures r ^ x0 == T(x3 ^ x2 ^ x1 ^ rk)
  {
    assert x3 ^ x2 ^ x1 ^ rk == x1 ^ x2 ^ x3 ^ rk;
    x0 ^ T(x1 ^ x2 ^ x3 ^ rk)
  }

  /** The Feistel property of a round: applying round_f again with the same
      key and the other three words in reverse order restores x0. */
  lemma RoundFInvolution(x0: word, x1: word, x2: word, x3: word, rk: word)
    ensures RoundF(RoundF(x0, x1, x2, x3, rk), x3, x2, x1, rk) == x0
  {
    assert x3 ^ x2 ^ x1 ^ rk == x1 ^ x2 ^ x3 ^ rk;
  }
}
