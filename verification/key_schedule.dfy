/** The SM4 key expansion (section 7.3 of GB/T 32907-2016), as
    `sm4_key_schedule` computes it into a 36-word array K.

    The expansion is written for any mixer `tp` in the place of T'; the
    round keys of SM4 are the expansion with `Round.Tp`. */
module KeyExpansion {
  import opened Bytes
  import opened Tables
  import opened Round
  import opened BlockCipher

  /** MK[i], the i-th big-endian word of the key. */
  function KeyWord(key: Block, i: nat): word
    requires i < 4
  {
    PackWord(key[4 * i], key[4 * i + 1], key[4 * i + 2], key[4 * i + 3])
  }

  /** K[0..3]: the key words MK[i] xored with FK[i]. Undoing the xor and
      writing the word out big-endian gives back bytes 4i .. 4i+3 of the
      key. */
  function InitialWords(key: Block): (k: seq<word>)
    ensures |k| == 4
    ensures forall i :: 0 <= i < 4 ==> WordBytes(k[i] ^ FK[i]) == key[4 * i .. 4 * i + 4]
  {
    var k := seq(4, i requires 0 <= i < 4 => KeyWord(key, i) ^ FK[i]);
    forall i | 0 <= i < 4
      ensures WordBytes(k[i] ^ FK[i]) == key[4 * i .. 4 * i + 4]
    {
      XorCancel(KeyWord(key, i), FK[i]);
      KeyWordBytes(key, i);
    }
    k
  }

  /** Xoring the same word twice cancels. */
  lemma XorCancel(a: word, b: word)
    ensures a ^ b ^ b == a
  {
  }

  /** Writing MK[i] out big-endian gives back bytes 4i .. 4i+3 of the key. */
  lemma KeyWordBytes(key: Block, i: nat)
    requires i < 4
    ensures WordBytes(KeyWord(key, i)) == key[4 * i .. 4 * i + 4]
  {
  }

  /** One step of the expansion loop: K[i+4] from K[i .. i+3] and ck[i]. */
  function NextWord(tp: word -> word, ck: seq<word>, k: seq<word>, i: nat): word
    requires i + 4 <= |k| && i < |ck|
  {
    k[i] ^ tp(k[i + 1] ^ k[i + 2] ^ k[i + 3] ^ ck[i])
  }

  /** K[0 .. n+3], the words known after `n` iterations of the expansion
      loop that starts from the four words `k0`. */
  function Expand(tp: word -> word, ck: seq<word>, k0: seq<word>, n: nat): (k: seq<word>)
    requires |ck| == 32 && |k0| == 4 && n <= 32
    ensures |k| == n + 4
  {
    if n == 0 then k0
    else
      var k := Expand(tp, ck, k0, n - 1);
      k + [NextWord(tp, ck, k, n - 1)]
  }

  /** Each iteration appends one word and keeps the earlier ones. */
  lemma ExpandPrefix(tp: word -> word, ck: seq<word>, k0: seq<word>, n: nat)
    requires |ck| == 32 && |k0| == 4 && 0 < n <= 32
    ensures Expand(tp, ck, k0, n)[..n + 3] == Expand(tp, ck, k0, n - 1)
  {
  }

  /** NextWord reads only the four words K[i .. i+3]. */
  lemma NextWordPrefix(tp: word -> word, ck: seq<word>, k: seq<word>, k': seq<word>, i: nat)
    requires i + 4 <= |k| <= |k'| && i < |ck| && k'[..|k|] == k
    ensures NextWord(tp, ck, k', i) == NextWord(tp, ck, k, i)
  {
    assert k'[i] == k[i] && k'[i + 1] == k[i + 1] && k'[i + 2] == k[i + 2] && k'[i + 3] == k[i + 3];
  }

  /** Word K[i+4] obeys the expansion recurrence once the loop has run
      past iteration `i`. */
  lemma {:induction false} ExpandAt(tp: word -> word, ck: seq<word>, k0: seq<word>, n: nat, i: nat)
    requires |ck| == 32 && |k0| == 4 && i < n <= 32
    ensures Expand(tp, ck, k0, n)[i + 4] == NextWord(tp, ck, Expand(tp, ck, k0, n), i)
  {
    var k, k' := Expand(tp, ck, k0, n - 1), Expand(tp, ck, k0, n);
    ExpandPrefix(tp, ck, k0, n);
    NextWordPrefix(tp, ck, k, k', i);
    if i < n - 1 {
      ExpandAt(tp, ck, k0, n - 1, i);
      assert k'[i + 4] == k[i + 4];
    }
  }

  /** The first four words are `k0`. */
  lemma {:induction false} ExpandStart(tp: word -> word, ck: seq<word>, k0: seq<word>, n: nat)
    requires |ck| == 32 && |k0| == 4 && n <= 32
    ensures Expand(tp, ck, k0, n)[..4] == k0
  {
    if n > 0 {
      ExpandStart(tp, ck, k0, n - 1);
      ExpandPrefix(tp, ck, k0, n);
    }
  }

  /** The expansion recurrence holds for every word K[4 .. n+3] and the
      first four words are `k0`. */
  lemma ExpandRecurrence(tp: word -> word, ck: seq<word>, k0: seq<word>, n: nat)
    requires |ck| == 32 && |k0| == 4 && n <= 32
    ensures Expand(tp, ck, k0, n)[..4] == k0
    ensures forall i {:trigger NextWord(tp, ck, Expand(tp, ck, k0, n), i)} :: 0 <= i < n ==>
      Expand(tp, ck, k0, n)[i + 4] == NextWord(tp, ck, Expand(tp, ck, k0, n), i)
  {
    ExpandStart(tp, ck, k0, n);
    forall i | 0 <= i < n
      ensures Expand(tp, ck, k0, n)[i + 4] == NextWord(tp, ck, Expand(tp, ck, k0, n), i)
    {
      ExpandAt(tp, ck, k0, n, i);
    }
  }

  /** K[0..35] as `sm4_key_schedule` fills it for `key`. */
  function KeyWords(key: Block): (k: seq<word>)
    ensures |k| == 36
  {
    Expand(Tp, CK, InitialWords(key), 32)
  }

  /** sm4_key_schedule: rk[i] = K[i+4]. The round keys continue the words
      MK ^ FK by the expansion recurrence. */
  function KeySchedule(key: Block): (rk: RoundKeys)
    ensures forall i :: 0 <= i < 32 ==>
      (InitialWords(key) + rk)[i + 4] == NextWord(Tp, CK, InitialWords(key) + rk, i)
  {
    ExpandRecurrence(Tp, CK, InitialWords(key), 32);
    var k := KeyWords(key);
    assert k == InitialWords(key) + k[4..];
    k[4..]
  }

  /** The words behind the round keys start with MK ^ FK and continue by
      the expansion recurrence
      K[i+4] = K[i] ^ T'(K[i+1] ^ K[i+2] ^ K[i+3] ^ CK[i]) for i in 0..31;
      round key i is K[i+4]. */
  lemma KeyScheduleRecurrence(key: Block)
    ensures KeyWords(key)[..4] == InitialWords(key)
    ensures forall i :: 0 <= i < 32 ==> KeyWords(key)[i + 4] == NextWord(Tp, CK, KeyWords(key), i)
    ensures forall i :: 0 <= i < 32 ==> KeySchedule(key)[i] == KeyWords(key)[i + 4]
  {
    ExpandRecurrence(Tp, CK, InitialWords(key), 32);
  }
}
