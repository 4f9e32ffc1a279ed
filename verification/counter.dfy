/** The counter update of CTR mode: the 16-byte counter block read as a
    big-endian integer and incremented modulo 2^128, as in Appendix B.1 of
    NIST SP 800-38A. */
module Counter {
  import opened Bytes

  /** The big-endian value of a byte string. */
  function BeValue(s: seq<byte>): nat
    decreases |s|
  {
    if s == [] then 0 else BeValue(s[..|s| - 1]) * 256 + s[|s| - 1] as nat
  }

  /** 256^n, the number of values an n-byte string can take. */
  function Pow256(n: nat): (p: nat)
    ensures p >= 1
  {
    if n == 0 then 1 else 256 * Pow256(n - 1)
  }

  /** An n-byte string denotes a value below 256^n. */
  lemma {:induction false} BeValueBound(s: seq<byte>)
    ensures BeValue(s) < Pow256(|s|)
    decreases |s|
  {
    if s != [] {
      BeValueBound(s[..|s| - 1]);
    }
  }

  /** The increment loop `for(k=15;k>=0;k--) if(++counter[k]) break;`
      over a counter of any length: bump the last byte and stop unless it
      wrapped to zero, in which case carry into the bytes before it. */
  function Increment(s: seq<byte>): (r: seq<byte>)
    ensures |r| == |s|
    decreases |s|
  {
    if s == [] then []
    else
      var last := s[|s| - 1] + 1;
      if last != 0 then s[..|s| - 1] + [last] else Increment(s[..|s| - 1]) + [0]
  }

  /** Appending a byte shifts the value by one byte. */
  lemma BeValueSnoc(init: seq<byte>, b: byte)
    ensures BeValue(init + [b]) == BeValue(init) * 256 + b as nat
  {
    assert (init + [b])[..|init|] == init;
  }

  /** The value after one iteration of the increment loop on the last
      byte: either that byte grows by one, or it wraps to zero and the
      carry goes into the prefix. */
  lemma IncrementSnoc(init: seq<byte>, b: byte)
    ensures BeValue(Increment(init + [b])) ==
      if b != 0xFF then BeValue(init) * 256 + b as nat + 1 else BeValue(Increment(init)) * 256
  {
    var s := init + [b];
    assert s[..|s| - 1] == init;
    if b != 0xFF {
      BeValueSnoc(init, b + 1);
      assert (b + 1) as nat == b as nat + 1;
    } else {
      BeValueSnoc(Increment(init), 0);
    }
  }

  /** The increment is +1 modulo 256^|s| on the big-endian value: the
      successor, except that the largest value wraps around to zero. */
  lemma {:induction false} IncrementValue(s: seq<byte>)
    ensures BeValue(Increment(s)) == if BeValue(s) + 1 == Pow256(|s|) then 0 else BeValue(s) + 1
    decreases |s|
  {
    if s != [] {
      var init, b := s[..|s| - 1], s[|s| - 1];
      assert s == init + [b];
      BeValueSnoc(init, b);
      BeValueBound(init);
      IncrementSnoc(init, b);
      if b == 0xFF {
        IncrementValue(init);
      }
    }
  }

  /** A counter of all 0xFF bytes wraps around to all zero bytes. */
  lemma {:induction false} IncrementAllOnes(n: nat)
    ensures Increment(seq(n, _ => 0xFF)) == seq(n, _ => 0x00)
  {
    if n > 0 {
      var s: seq<byte> := seq(n, _ => 0xFF);
      IncrementAllOnes(n - 1);
      assert s[..n - 1] == seq(n - 1, _ => 0xFF);
      assert s[n - 1] + 1 == 0;
      assert Increment(s) == seq(n - 1, _ => 0x00) + [0x00];
      assert seq(n - 1, _ => 0x00) + [0x00] == seq(n, _ => 0x00);
    }
  }

  /** The 128-bit case: sixteen 0xFF bytes become sixteen 0x00 bytes. */
  lemma CounterWraps()
    ensures Increment(seq(BLOCK_SIZE, _ => 0xFF)) == seq(BLOCK_SIZE, _ => 0x00)
  {
    IncrementAllOnes(BLOCK_SIZE);
  }
}
