/** The SM4 block transform (section 7.1 of GB/T 32907-2016): 32 rounds over
    a state of four big-endian words, followed by the reverse transform R
    that writes the words out in the opposite order.

    The iteration structure is stated for any round function `f` with the
    shape of `round_f`; its round-trip only needs the Feistel property of
    `f`, which `Round.RoundF` has. */
module BlockCipher {
  import opened Bytes
  import opened Round

  /** The 32 round keys held by an `sm4_context`. */
  type RoundKeys = rk: seq<word> | |rk| == 32 witness seq(32, _ => 0)

  /** A round function with the shape of round_f(x0, x1, x2, x3, rk). */
  type RoundFunction = (word, word, word, word, word) -> word

  /** The four-word array `x[0..3]` of the encryption loop. */
  datatype State = State(x0: word, x1: word, x2: word, x3: word)

  /** Re-applying the round with the other three words in reverse order
      restores the replaced word. */
  ghost predicate Feistel(f: RoundFunction) {
    forall x0, x1, x2, x3, k :: f(f(x0, x1, x2, x3, k), x3, x2, x1, k) == x0
  }

  lemma RoundFIsFeistel()
    ensures Feistel(RoundF)
  {
    forall x0, x1, x2, x3, k
      ensures RoundF(RoundF(x0, x1, x2, x3, k), x3, x2, x1, k) == x0
    {
      RoundFInvolution(x0, x1, x2, x3, k);
    }
  }

  /** Loads the four big-endian words of a block. */
  function Load(b: Block): State {
    State(PackWord(b[0], b[1], b[2], b[3]), PackWord(b[4], b[5], b[6], b[7]),
          PackWord(b[8], b[9], b[10], b[11]), PackWord(b[12], b[13], b[14], b[15]))
  }

  /** The four big-endian bytes of a word. */
  function WordBytes(x: word): (r: seq<byte>)
    ensures |r| == 4
  {
    [ByteOf(x, 0), ByteOf(x, 1), ByteOf(x, 2), ByteOf(x, 3)]
  }

  /** Writes the state out as 16 bytes, x0 first. */
  function Store(s: State): Block {
    WordBytes(s.x0) + WordBytes(s.x1) + WordBytes(s.x2) + WordBytes(s.x3)
  }

  /** Storing then loading gives the same words back. */
  lemma LoadStore(s: State)
    ensures Load(Store(s)) == s
  {
    PackBytesOf(s.x0);
    PackBytesOf(s.x1);
    PackBytesOf(s.x2);
    PackBytesOf(s.x3);
  }

  /** Loading then storing gives the same bytes back. */
  lemma StoreLoad(b: Block)
    ensures Store(Load(b)) == b
  {
    var s := Load(b);
    assert WordBytes(s.x0) == b[0..4];
    assert WordBytes(s.x1) == b[4..8];
    assert WordBytes(s.x2) == b[8..12];
    assert WordBytes(s.x3) == b[12..16];
    assert b == b[0..4] + b[4..8] + b[8..12] + b[12..16];
  }

  /** The reverse transform R: the words in the opposite order. */
  function Reverse(s: State): State {
    State(s.x3, s.x2, s.x1, s.x0)
  }

  /** One iteration of the round loop: `f` replaces x[0], then the three
      SWAPs rotate the state one word to the left. */
  function Step(f: RoundFunction, s: State, k: word): State {
    State(s.x1, s.x2, s.x3, f(s.x0, s.x1, s.x2, s.x3, k))
  }

  /** Reference definition: the rounds with keys `ks[0]`, `ks[1]`, ... in order. */
  function Rounds(f: RoundFunction, s: State, ks: seq<word>): State
    decreases |ks|
  {
    if ks == [] then s else Step(f, Rounds(f, s, ks[..|ks| - 1]), ks[|ks| - 1])
  }

  /** The state after the first `n` iterations of `for(i=0;i<32;i++)`. */
  function EncRounds(f: RoundFunction, s: State, rk: RoundKeys, n: nat): State
    requires n <= 32
  {
    if n == 0 then s else Step(f, EncRounds(f, s, rk, n - 1), rk[n - 1])
  }

  /** The state after the first `n` iterations of `for(i=31;i>=0;i--)`. */
  function DecRounds(f: RoundFunction, s: State, rk: RoundKeys, n: nat): State
    requires n <= 32
  {
    if n == 0 then s else Step(f, DecRounds(f, s, rk, n - 1), rk[32 - n])
  }

  /** The block transform with round function `f`: load, the 32 rounds of
      the encryption loop, store reversed. */
  function EncryptWith(f: RoundFunction, b: Block, rk: RoundKeys): Block {
    Store(Reverse(EncRounds(f, Load(b), rk, 32)))
  }

  /** The same with the loop of the decryption, rk[31] down to rk[0]. */
  function DecryptWith(f: RoundFunction, b: Block, rk: RoundKeys): Block {
    Store(Reverse(DecRounds(f, Load(b), rk, 32)))
  }

  /** sm4_encrypt: the reference rounds with rk[0], ..., rk[31] in order,
      between the big-endian load and the reversed store. */
  function Encrypt(b: Block, rk: RoundKeys): (r: Block)
    ensures r == Store(Reverse(Rounds(RoundF, Load(b), rk)))
  {
    EncRoundsInOrder(RoundF, Load(b), rk, 32);
    assert rk[..32] == rk;
    EncryptWith(RoundF, b, rk)
  }

  /** sm4_decrypt: the reference rounds with rk[31], ..., rk[0]. */
  function Decrypt(b: Block, rk: RoundKeys): (r: Block)
    ensures r == Store(Reverse(Rounds(RoundF, Load(b), Rev(rk))))
  {
    DecRoundsReversed(RoundF, Load(b), rk, 32);
    assert Rev(rk)[..32] == Rev(rk);
    DecryptWith(RoundF, b, rk)
  }

  /** A sequence of words in the opposite order. */
  function Rev(ks: seq<word>): (r: seq<word>)
    ensures |r| == |ks|
    ensures forall i :: 0 <= i < |ks| ==> r[i] == ks[|ks| - 1 - i]
  {
    seq(|ks|, i requires 0 <= i < |ks| => ks[|ks| - 1 - i])
  }

  /** Reversing twice gives the keys back. */
  lemma RevRev(ks: seq<word>)
    ensures Rev(Rev(ks)) == ks
  {
    assert forall i :: 0 <= i < |ks| ==> Rev(Rev(ks))[i] == ks[i];
  }

  /** Reversal brings the last key to the front. */
  lemma RevSnoc(init: seq<word>, k: word)
    ensures Rev(init + [k]) == [k] + Rev(init)
  {
    assert forall i :: 0 <= i < |init| + 1 ==> Rev(init + [k])[i] == ([k] + Rev(init))[i];
  }

  /** The encryption loop applies rk[0], ..., rk[n-1] in order. */
  lemma {:induction false} EncRoundsInOrder(f: RoundFunction, s: State, rk: RoundKeys, n: nat)
    requires n <= 32
    ensures EncRounds(f, s, rk, n) == Rounds(f, s, rk[..n])
  {
    if n > 0 {
      EncRoundsInOrder(f, s, rk, n - 1);
      assert rk[..n][..n - 1] == rk[..n - 1];
    }
  }

  /** The decryption loop applies rk[31], ..., rk[32-n]: the first n of the
      reversed keys. */
  lemma {:induction false} DecRoundsReversed(f: RoundFunction, s: State, rk: RoundKeys, n: nat)
    requires n <= 32
    ensures DecRounds(f, s, rk, n) == Rounds(f, s, Rev(rk)[..n])
  {
    if n > 0 {
      DecRoundsReversed(f, s, rk, n - 1);
      assert Rev(rk)[..n][..n - 1] == Rev(rk)[..n - 1];
      assert Rev(rk)[..n][n - 1] == rk[32 - n];
    }
  }

  /** Decryption is encryption with the round keys in reverse order: the
      loop bounds are the only difference. */
  lemma DecryptIsReversedKeyEncrypt(f: RoundFunction, b: Block, rk: RoundKeys)
    ensures DecryptWith(f, b, rk) == EncryptWith(f, b, Rev(rk))
  {
    DecRoundsReversed(f, Load(b), rk, 32);
    EncRoundsInOrder(f, Load(b), Rev(rk), 32);
    assert rk[..32] == rk;
    assert Rev(rk)[..32] == Rev(rk);
  }

  /** Running the rounds from the front: the first key acts first. */
  lemma {:induction false} RoundsCons(f: RoundFunction, s: State, k: word, ks: seq<word>)
    ensures Rounds(f, s, [k] + ks) == Rounds(f, Step(f, s, k), ks)
    decreases |ks|
  {
    if ks == [] {
      assert ([k] + ks)[..0] == [];
    } else {
      var init := ks[..|ks| - 1];
      assert ([k] + ks)[..|ks|] == [k] + init;
      RoundsCons(f, s, k, init);
    }
  }

  /** The Feistel property lifted to any number of rounds: rounds with the
      keys reversed undo the rounds, up to the reverse transform. */
  lemma {:induction false} RoundsUndo(f: RoundFunction, s: State, ks: seq<word>)
    requires Feistel(f)
    ensures Rounds(f, Reverse(Rounds(f, s, ks)), Rev(ks)) == Reverse(s)
    decreases |ks|
  {
    if ks != [] {
      var init, k := ks[..|ks| - 1], ks[|ks| - 1];
      var t := Rounds(f, s, init);
      assert ks == init + [k];
      RevSnoc(init, k);
      RoundsCons(f, Reverse(Step(f, t, k)), k, Rev(init));
      assert Step(f, Reverse(Step(f, t, k)), k) == Reverse(t);
      RoundsUndo(f, s, init);
    }
  }

  /** Block round-trip for any Feistel round function. */
  lemma DecryptEncryptWith(f: RoundFunction, b: Block, rk: RoundKeys)
    requires Feistel(f)
    ensures DecryptWith(f, EncryptWith(f, b, rk), rk) == b
  {
    var s := Load(b);
    EncRoundsInOrder(f, s, rk, 32);
    assert rk[..32] == rk;
    var t := Rounds(f, s, rk);
    LoadStore(Reverse(t));
    DecRoundsReversed(f, Reverse(t), rk, 32);
    assert Rev(rk)[..32] == Rev(rk);
    RoundsUndo(f, s, rk);
    StoreLoad(b);
  }

  /** ...and in the other order: for a fixed key the transform is a
      permutation of the 16-byte blocks. */
  lemma EncryptDecryptWith(f: RoundFunction, b: Block, rk: RoundKeys)
    requires Feistel(f)
    ensures EncryptWith(f, DecryptWith(f, b, rk), rk) == b
  {
    var s := Load(b);
    DecRoundsReversed(f, s, rk, 32);
    assert Rev(rk)[..32] == Rev(rk);
    var t := Rounds(f, s, Rev(rk));
    LoadStore(Reverse(t));
    EncRoundsInOrder(f, Reverse(t), rk, 32);
    assert rk[..32] == rk;
    RoundsUndo(f, s, Rev(rk));
    RevRev(rk);
    StoreLoad(b);
  }

  /** SM4 block round-trip: sm4_decrypt inverts sm4_encrypt for every
      round-key array. */
  lemma DecryptEncrypt(b: Block, rk: RoundKeys)
    ensures Decrypt(Encrypt(b, rk), rk) == b
  {
    RoundFIsFeistel();
    DecryptEncryptWith(RoundF, b, rk);
  }

  /** sm4_encrypt inverts sm4_decrypt. */
  lemma EncryptDecrypt(b: Block, rk: RoundKeys)
    ensures Encrypt(Decrypt(b, rk), rk) == b
  {
    RoundFIsFeistel();
    EncryptDecryptWith(RoundF, b, rk);
  }

  /** sm4_decrypt is sm4_encrypt with the round keys reversed. */
  lemma DecryptIsEncryptReversed(b: Block, rk: RoundKeys)
    ensures Decrypt(b, rk) == Encrypt(b, Rev(rk))
  {
    DecryptIsReversedKeyEncrypt(RoundF, b, rk);
  }
}
