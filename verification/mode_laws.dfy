/** What the modes of sm4.c compute, stated independently of their
    block-by-block recursion: the per-block equations of NIST SP 800-38A,
    the round trips, and for OFB and CTR the xor with a keystream that does
    not depend on the data. */
module ModeLaws {
  import opened Bytes
  import opened Counter
  import opened Modes

  /** Dropping the first block shifts block indices by one. */
  lemma BlockAtDrop(s: seq<byte>, i: nat)
    requires i >= 1 && BLOCK_SIZE * (i + 1) <= |s|
    ensures BlockAt(s, i) == BlockAt(s[BLOCK_SIZE..], i - 1)
  {
    var lo := BLOCK_SIZE * (i - 1);
    assert lo + BLOCK_SIZE == BLOCK_SIZE * i;
    assert s[BLOCK_SIZE..][lo..lo + BLOCK_SIZE] == s[lo + BLOCK_SIZE..lo + 2 * BLOCK_SIZE];
  }

  /** Block `i >= 1` of `a + rest`, for a block `a`, is block `i - 1` of `rest`. */
  lemma BlockAtCons(a: seq<byte>, rest: seq<byte>, i: nat)
    requires |a| == BLOCK_SIZE && i >= 1 && BLOCK_SIZE * (i + 1) <= |a + rest|
    ensures BlockAt(a + rest, i) == BlockAt(rest, i - 1)
  {
    assert (a + rest)[BLOCK_SIZE..] == rest;
    BlockAtDrop(a + rest, i);
  }

  /** Splitting a sequence after its first block. */
  lemma SplitFirst(s: seq<byte>)
    requires |s| >= BLOCK_SIZE
    ensures s == s[..BLOCK_SIZE] + s[BLOCK_SIZE..] && BlockAt(s, 0) == s[..BLOCK_SIZE]
  {
  }

  /** The block before block `i` in a chained mode: the IV for the first. */
  function Prev(iv: Block, s: seq<byte>, i: nat): Block
    requires BLOCK_SIZE * i <= |s|
  {
    if i == 0 then iv else BlockAt(s, i - 1)
  }

  /** Prev over `a + rest` for a block `a` is Prev over `rest` chained from `a`. */
  lemma PrevCons(iv: Block, a: Block, rest: seq<byte>, i: nat)
    requires i >= 1 && BLOCK_SIZE * i <= |a + rest|
    ensures Prev(iv, a + rest, i) == Prev(a, rest, i - 1)
  {
    if i == 1 {
      assert BlockAt(a + rest, 0) == a;
    } else {
      BlockAtCons(a, rest, i - 1);
    }
  }

  // ECB

  /** Block i of the ECB ciphertext is the encryption of block i:
      C_i = CIPH_K(P_i). */
  lemma {:induction false} EcbEncryptBlocks(c: Cipher, inp: seq<byte>, i: nat)
    requires BLOCK_SIZE * (i + 1) <= |inp|
    ensures BlockAt(EcbEncrypt(c, inp), i) == c.encrypt(BlockAt(inp, i))
    decreases i
  {
    SplitFirst(inp);
    var rest := EcbEncrypt(c, inp[BLOCK_SIZE..]);
    if i == 0 {
      assert BlockAt(c.encrypt(inp[..BLOCK_SIZE]) + rest, 0) == c.encrypt(inp[..BLOCK_SIZE]);
    } else {
      EcbEncryptBlocks(c, inp[BLOCK_SIZE..], i - 1);
      BlockAtCons(c.encrypt(inp[..BLOCK_SIZE]), rest, i);
      BlockAtDrop(inp, i);
    }
  }

  /** Block i of the ECB plaintext is the decryption of block i:
      P_i = CIPH^-1_K(C_i). */
  lemma {:induction false} EcbDecryptBlocks(c: Cipher, inp: seq<byte>, i: nat)
    requires BLOCK_SIZE * (i + 1) <= |inp|
    ensures BlockAt(EcbDecrypt(c, inp), i) == c.decrypt(BlockAt(inp, i))
    decreases i
  {
    SplitFirst(inp);
    var rest := EcbDecrypt(c, inp[BLOCK_SIZE..]);
    if i == 0 {
      assert BlockAt(c.decrypt(inp[..BLOCK_SIZE]) + rest, 0) == c.decrypt(inp[..BLOCK_SIZE]);
    } else {
      EcbDecryptBlocks(c, inp[BLOCK_SIZE..], i - 1);
      BlockAtCons(c.decrypt(inp[..BLOCK_SIZE]), rest, i);
      BlockAtDrop(inp, i);
    }
  }

  /** ECB decryption undoes ECB encryption, tail included. */
  lemma {:induction false} EcbRoundTrip(c: Cipher, p: seq<byte>)
    requires Inverse(c)
    ensures EcbDecrypt(c, EcbEncrypt(c, p)) == p
    decreases |p|
  {
    if |p| >= BLOCK_SIZE {
      var e := EcbEncrypt(c, p);
      var head := c.encrypt(p[..BLOCK_SIZE]);
      var rest := EcbEncrypt(c, p[BLOCK_SIZE..]);
      assert e[..BLOCK_SIZE] == head && e[BLOCK_SIZE..] == rest;
      EcbRoundTrip(c, p[BLOCK_SIZE..]);
      SplitFirst(p);
    }
  }

  /** ECB encryption undoes ECB decryption, tail included. */
  lemma {:induction false} EcbRoundTripInverse(c: Cipher, ct: seq<byte>)
    requires Inverse(c)
    ensures EcbEncrypt(c, EcbDecrypt(c, ct)) == ct
    decreases |ct|
  {
    if |ct| >= BLOCK_SIZE {
      var d := EcbDecrypt(c, ct);
      var head := c.decrypt(ct[..BLOCK_SIZE]);
      var rest := EcbDecrypt(c, ct[BLOCK_SIZE..]);
      assert d[..BLOCK_SIZE] == head && d[BLOCK_SIZE..] == rest;
      EcbRoundTripInverse(c, ct[BLOCK_SIZE..]);
      SplitFirst(ct);
    }
  }

  // CBC

  /** Block i of the CBC ciphertext: C_i = CIPH_K(P_i xor C_{i-1}),
      with C_{-1} = IV. */
  lemma {:induction false} CbcEncryptBlocks(c: Cipher, iv: Block, inp: seq<byte>, i: nat)
    requires BLOCK_SIZE * (i + 1) <= |inp|
    ensures BlockAt(CbcEncrypt(c, iv, inp), i) ==
      c.encrypt(Xor(BlockAt(inp, i), Prev(iv, CbcEncrypt(c, iv, inp), i)))
    decreases i
  {
    SplitFirst(inp);
    var ct := c.encrypt(Xor(inp[..BLOCK_SIZE], iv));
    var rest := CbcEncrypt(c, ct, inp[BLOCK_SIZE..]);
    if i == 0 {
      assert BlockAt(ct + rest, 0) == ct;
    } else {
      CbcEncryptBlocks(c, ct, inp[BLOCK_SIZE..], i - 1);
      BlockAtCons(ct, rest, i);
      BlockAtDrop(inp, i);
      PrevCons(iv, ct, rest, i);
    }
  }

  /** Block i of the CBC plaintext: P_i = CIPH^-1_K(C_i) xor C_{i-1},
      with C_{-1} = IV, the previous block read from the input. */
  lemma {:induction false} CbcDecryptBlocks(c: Cipher, iv: Block, inp: seq<byte>, i: nat)
    requires BLOCK_SIZE * (i + 1) <= |inp|
    ensures BlockAt(CbcDecrypt(c, iv, inp), i) == Xor(c.decrypt(BlockAt(inp, i)), Prev(iv, inp, i))
    decreases i
  {
    SplitFirst(inp);
    var ciph: Block := inp[..BLOCK_SIZE];
    var pt := Xor(c.decrypt(ciph), iv);
    var rest := CbcDecrypt(c, ciph, inp[BLOCK_SIZE..]);
    if i == 0 {
      assert BlockAt(pt + rest, 0) == pt;
    } else {
      CbcDecryptBlocks(c, ciph, inp[BLOCK_SIZE..], i - 1);
      BlockAtCons(pt, rest, i);
      BlockAtDrop(inp, i);
      PrevCons(iv, ciph, inp[BLOCK_SIZE..], i);
    }
  }

  /** CBC decryption undoes CBC encryption under the same IV. */
  lemma {:induction false} CbcRoundTrip(c: Cipher, iv: Block, p: seq<byte>)
    requires Inverse(c)
    ensures CbcDecrypt(c, iv, CbcEncrypt(c, iv, p)) == p
    decreases |p|
  {
    if |p| >= BLOCK_SIZE {
      var e := CbcEncrypt(c, iv, p);
      var ct := c.encrypt(Xor(p[..BLOCK_SIZE], iv));
      var rest := CbcEncrypt(c, ct, p[BLOCK_SIZE..]);
      assert e[..BLOCK_SIZE] == ct && e[BLOCK_SIZE..] == rest;
      XorInvolution(p[..BLOCK_SIZE], iv);
      CbcRoundTrip(c, ct, p[BLOCK_SIZE..]);
      SplitFirst(p);
    }
  }

  /** CBC encryption undoes CBC decryption under the same IV. */
  lemma {:induction false} CbcRoundTripInverse(c: Cipher, iv: Block, ct: seq<byte>)
    requires Inverse(c)
    ensures CbcEncrypt(c, iv, CbcDecrypt(c, iv, ct)) == ct
    decreases |ct|
  {
    if |ct| >= BLOCK_SIZE {
      var d := CbcDecrypt(c, iv, ct);
      var ciph: Block := ct[..BLOCK_SIZE];
      var pt := Xor(c.decrypt(ciph), iv);
      var rest := CbcDecrypt(c, ciph, ct[BLOCK_SIZE..]);
      assert d[..BLOCK_SIZE] == pt && d[BLOCK_SIZE..] == rest;
      XorInvolution(c.decrypt(ciph), iv);
      CbcRoundTripInverse(c, ciph, ct[BLOCK_SIZE..]);
      SplitFirst(ct);
    }
  }

  // CFB

  /** Block i of the CFB ciphertext: C_i = P_i xor CIPH_K(C_{i-1}),
      with C_{-1} = IV. */
  lemma {:induction false} CfbEncryptBlocks(c: Cipher, iv: Block, inp: seq<byte>, i: nat)
    requires BLOCK_SIZE * (i + 1) <= |inp|
    ensures BlockAt(CfbEncrypt(c, iv, inp), i) ==
      Xor(BlockAt(inp, i), c.encrypt(Prev(iv, CfbEncrypt(c, iv, inp), i)))
    decreases i
  {
    SplitFirst(inp);
    var ct := Xor(inp[..BLOCK_SIZE], c.encrypt(iv));
    var rest := CfbEncrypt(c, ct, inp[BLOCK_SIZE..]);
    if i == 0 {
      assert BlockAt(ct + rest, 0) == ct;
    } else {
      CfbEncryptBlocks(c, ct, inp[BLOCK_SIZE..], i - 1);
      BlockAtCons(ct, rest, i);
      BlockAtDrop(inp, i);
      PrevCons(iv, ct, rest, i);
    }
  }

  /** The tail of the CFB ciphertext: the last len % 16 bytes are the input
      tail xored with the leading bytes of CIPH_K of the last full
      ciphertext block (of the IV when there is none). */
  lemma {:induction false} CfbEncryptTail(c: Cipher, iv: Block, inp: seq<byte>, full: nat)
    requires BLOCK_SIZE * full < |inp| < BLOCK_SIZE * (full + 1)
    ensures CfbEncrypt(c, iv, inp)[BLOCK_SIZE * full..] ==
      Xor(inp[BLOCK_SIZE * full..],
          c.encrypt(Prev(iv, CfbEncrypt(c, iv, inp), full))[..|inp| - BLOCK_SIZE * full])
    decreases full
  {
    if full > 0 {
      var ct: Block := Xor(inp[..BLOCK_SIZE], c.encrypt(iv));
      var rest := inp[BLOCK_SIZE..];
      var off, off' := BLOCK_SIZE * full, BLOCK_SIZE * (full - 1);
      assert off' + BLOCK_SIZE == off;
      CfbEncryptTail(c, ct, rest, full - 1);
      var whole, later := CfbEncrypt(c, iv, inp), CfbEncrypt(c, ct, rest);
      assert whole == ct + later;
      PrevCons(iv, ct, later, full);
      assert whole[off..] == later[off'..];
      assert inp[off..] == rest[off'..];
    }
  }

  /** Block i of the CFB plaintext: P_i = C_i xor CIPH_K(C_{i-1}), with
      C_{-1} = IV, the previous block read from the input. */
  lemma {:induction false} CfbDecryptBlocks(c: Cipher, iv: Block, inp: seq<byte>, i: nat)
    requires BLOCK_SIZE * (i + 1) <= |inp|
    ensures BlockAt(CfbDecrypt(c, iv, inp), i) == Xor(BlockAt(inp, i), c.encrypt(Prev(iv, inp, i)))
    decreases i
  {
    SplitFirst(inp);
    var ciph: Block := inp[..BLOCK_SIZE];
    var pt := Xor(ciph, c.encrypt(iv));
    var rest := CfbDecrypt(c, ciph, inp[BLOCK_SIZE..]);
    if i == 0 {
      assert BlockAt(pt + rest, 0) == pt;
    } else {
      CfbDecryptBlocks(c, ciph, inp[BLOCK_SIZE..], i - 1);
      BlockAtCons(pt, rest, i);
      BlockAtDrop(inp, i);
      PrevCons(iv, ciph, inp[BLOCK_SIZE..], i);
    }
  }

  /** CFB decryption undoes CFB encryption under the same IV, tail
      included; the cipher is only ever run forward. */
  lemma {:induction false} CfbRoundTrip(c: Cipher, iv: Block, p: seq<byte>)
    ensures CfbDecrypt(c, iv, CfbEncrypt(c, iv, p)) == p
    decreases |p|
  {
    if 0 < |p| < BLOCK_SIZE {
      XorInvolution(p, c.encrypt(iv)[..|p|]);
    } else if |p| >= BLOCK_SIZE {
      var e := CfbEncrypt(c, iv, p);
      var ct := Xor(p[..BLOCK_SIZE], c.encrypt(iv));
      var rest := CfbEncrypt(c, ct, p[BLOCK_SIZE..]);
      assert e[..BLOCK_SIZE] == ct && e[BLOCK_SIZE..] == rest;
      XorInvolution(p[..BLOCK_SIZE], c.encrypt(iv));
      CfbRoundTrip(c, ct, p[BLOCK_SIZE..]);
      SplitFirst(p);
    }
  }

  /** CFB encryption undoes CFB decryption under the same IV. */
  lemma {:induction false} CfbRoundTripInverse(c: Cipher, iv: Block, ct: seq<byte>)
    ensures CfbEncrypt(c, iv, CfbDecrypt(c, iv, ct)) == ct
    decreases |ct|
  {
    if 0 < |ct| < BLOCK_SIZE {
      XorInvolution(ct, c.encrypt(iv)[..|ct|]);
    } else if |ct| >= BLOCK_SIZE {
      var d := CfbDecrypt(c, iv, ct);
      var ciph: Block := ct[..BLOCK_SIZE];
      var pt := Xor(ciph, c.encrypt(iv));
      var rest := CfbDecrypt(c, ciph, ct[BLOCK_SIZE..]);
      assert d[..BLOCK_SIZE] == pt && d[BLOCK_SIZE..] == rest;
      XorInvolution(ciph, c.encrypt(iv));
      CfbRoundTripInverse(c, ciph, ct[BLOCK_SIZE..]);
      SplitFirst(ct);
    }
  }

  // OFB

  /** The first n bytes of the OFB keystream O_0 O_1 ...,
      O_i = CIPH_K(O_{i-1}), O_{-1} = IV. */
  function OfbKeystream(c: Cipher, iv: Block, n: nat): (ks: seq<byte>)
    ensures |ks| == n
    decreases n
  {
    if n == 0 then []
    else if n < BLOCK_SIZE then c.encrypt(iv)[..n]
    else c.encrypt(iv) + OfbKeystream(c, c.encrypt(iv), n - BLOCK_SIZE)
  }

  /** Block i of the OFB keystream is the IV encrypted i + 1 times. */
  lemma {:induction false} OfbKeystreamBlocks(c: Cipher, iv: Block, n: nat, i: nat)
    requires BLOCK_SIZE * (i + 1) <= n
    ensures BlockAt(OfbKeystream(c, iv, n), i) == Iterate(c.encrypt, iv, i + 1)
    decreases i
  {
    var rest := OfbKeystream(c, c.encrypt(iv), n - BLOCK_SIZE);
    if i == 0 {
      assert BlockAt(c.encrypt(iv) + rest, 0) == c.encrypt(iv);
    } else {
      OfbKeystreamBlocks(c, c.encrypt(iv), n - BLOCK_SIZE, i - 1);
      BlockAtCons(c.encrypt(iv), rest, i);
    }
  }

  /** The tail of the OFB keystream: the last n % 16 bytes are the leading
      bytes of the IV encrypted once more than the number of full blocks. */
  lemma {:induction false} OfbKeystreamTail(c: Cipher, iv: Block, n: nat, full: nat)
    requires BLOCK_SIZE * full < n < BLOCK_SIZE * (full + 1)
    ensures OfbKeystream(c, iv, n)[BLOCK_SIZE * full..] ==
      Iterate(c.encrypt, iv, full + 1)[..n - BLOCK_SIZE * full]
    decreases full
  {
    var e := c.encrypt(iv);
    assert Iterate(c.encrypt, iv, full + 1) == Iterate(c.encrypt, e, full);
    if full > 0 {
      var off, off' := BLOCK_SIZE * full, BLOCK_SIZE * (full - 1);
      assert off' + BLOCK_SIZE == off;
      OfbKeystreamTail(c, e, n - BLOCK_SIZE, full - 1);
      var whole, later := OfbKeystream(c, iv, n), OfbKeystream(c, e, n - BLOCK_SIZE);
      assert whole == e + later;
      assert whole[off..] == later[off'..];
    }
  }

  /** OFB output is the input xored with a keystream that depends only on
      the cipher, the IV and the length. */
  lemma {:induction false} OfbIsKeystreamXor(c: Cipher, iv: Block, inp: seq<byte>)
    ensures OfbEncrypt(c, iv, inp) == Xor(inp, OfbKeystream(c, iv, |inp|))
    decreases |inp|
  {
    if |inp| >= BLOCK_SIZE {
      var ks := c.encrypt(iv);
      OfbIsKeystreamXor(c, ks, inp[BLOCK_SIZE..]);
      SplitFirst(inp);
      XorAppend(inp[..BLOCK_SIZE], inp[BLOCK_SIZE..], ks, OfbKeystream(c, ks, |inp| - BLOCK_SIZE));
    }
  }

  /** Applying OFB twice with the same IV gives the input back, so OFB
      decryption is OFB encryption. */
  lemma OfbInvolution(c: Cipher, iv: Block, inp: seq<byte>)
    ensures OfbEncrypt(c, iv, OfbEncrypt(c, iv, inp)) == inp
  {
    var ks := OfbKeystream(c, iv, |inp|);
    OfbIsKeystreamXor(c, iv, inp);
    OfbIsKeystreamXor(c, iv, OfbEncrypt(c, iv, inp));
    XorInvolution(inp, ks);
  }

  // CTR

  /** Counter.Increment, restated with a Block result so that Iterate,
      which needs a Block -> Block map, can count counter blocks. */
  function Next(ctr: Block): Block {
    Increment(ctr)
  }

  /** The first n bytes of the CTR keystream CIPH_K(T_0) CIPH_K(T_1) ...,
      T_i the initial counter incremented i times. */
  function CtrKeystream(c: Cipher, ctr: Block, n: nat): (ks: seq<byte>)
    ensures |ks| == n
    decreases n
  {
    if n == 0 then []
    else if n < BLOCK_SIZE then c.encrypt(ctr)[..n]
    else c.encrypt(ctr) + CtrKeystream(c, Next(ctr), n - BLOCK_SIZE)
  }

  /** Block i of the CTR keystream is the encryption of counter block T_i. */
  lemma {:induction false} CtrKeystreamBlocks(c: Cipher, ctr: Block, n: nat, i: nat)
    requires BLOCK_SIZE * (i + 1) <= n
    ensures BlockAt(CtrKeystream(c, ctr, n), i) == c.encrypt(Iterate(Next, ctr, i))
    decreases i
  {
    var rest := CtrKeystream(c, Next(ctr), n - BLOCK_SIZE);
    if i == 0 {
      assert BlockAt(c.encrypt(ctr) + rest, 0) == c.encrypt(ctr);
    } else {
      CtrKeystreamBlocks(c, Next(ctr), n - BLOCK_SIZE, i - 1);
      BlockAtCons(c.encrypt(ctr), rest, i);
    }
  }

  /** The tail of the CTR keystream: the last n % 16 bytes are the leading
      bytes of the encryption of the counter block after the full blocks. */
  lemma {:induction false} CtrKeystreamTail(c: Cipher, ctr: Block, n: nat, full: nat)
    requires BLOCK_SIZE * full < n < BLOCK_SIZE * (full + 1)
    ensures CtrKeystream(c, ctr, n)[BLOCK_SIZE * full..] ==
      c.encrypt(Iterate(Next, ctr, full))[..n - BLOCK_SIZE * full]
    decreases full
  {
    if full > 0 {
      var off, off' := BLOCK_SIZE * full, BLOCK_SIZE * (full - 1);
      assert off' + BLOCK_SIZE == off;
      CtrKeystreamTail(c, Next(ctr), n - BLOCK_SIZE, full - 1);
      var whole, later := CtrKeystream(c, ctr, n), CtrKeystream(c, Next(ctr), n - BLOCK_SIZE);
      assert whole == c.encrypt(ctr) + later;
      assert whole[off..] == later[off'..];
      assert Iterate(Next, ctr, full) == Iterate(Next, Next(ctr), full - 1);
    }
  }

  /** 2^128, the modulus of the 16-byte counter. */
  const COUNTER_MODULUS: nat := 0x1_0000_0000_0000_0000_0000_0000_0000_0000

  lemma CounterModulus()
    ensures Pow256(BLOCK_SIZE) == COUNTER_MODULUS
  {
    assert Pow256(4) == 0x1_0000_0000;
    assert Pow256(8) == 0x1_0000_0000_0000_0000;
    assert Pow256(12) == 0x1_0000_0000_0000_0000_0000_0000;
  }

  /** Counting i - 1 on from an incremented counter is counting i on. */
  lemma ModStep(r: nat, v: nat, w: nat, i: nat)
    requires i >= 1 && w == (v + 1) % COUNTER_MODULUS && r == (w + (i - 1)) % COUNTER_MODULUS
    ensures r == (v + i) % COUNTER_MODULUS
  {
  }

  /** One counter update is +1 modulo 2^128. */
  lemma NextValue(ctr: Block)
    ensures BeValue(Next(ctr)) == (BeValue(ctr) + 1) % COUNTER_MODULUS
  {
    CounterModulus();
    BeValueBound(ctr);
    IncrementValue(ctr);
  }

  /** A value below the modulus is its own residue. */
  lemma ModSmall(x: nat)
    requires x < COUNTER_MODULUS
    ensures x % COUNTER_MODULUS == x
  {
  }

  /** T_0 is the initial counter, below the modulus. */
  lemma CounterValueZero(ctr: Block)
    ensures BeValue(Iterate(Next, ctr, 0)) == (BeValue(ctr) + 0) % COUNTER_MODULUS
  {
    CounterModulus();
    BeValueBound(ctr);
    ModSmall(BeValue(ctr));
  }

  /** T_i is T_{i-1} counted from the incremented counter. */
  lemma CounterValueStep(ctr: Block, i: nat)
    requires i >= 1
    requires BeValue(Iterate(Next, Next(ctr), i - 1)) == (BeValue(Next(ctr)) + (i - 1)) % COUNTER_MODULUS
    ensures BeValue(Iterate(Next, ctr, i)) == (BeValue(ctr) + i) % COUNTER_MODULUS
  {
    assert Iterate(Next, ctr, i) == Iterate(Next, Next(ctr), i - 1);
    NextValue(ctr);
    ModStep(BeValue(Iterate(Next, ctr, i)), BeValue(ctr), BeValue(Next(ctr)), i);
  }

  /** T_i, read as a big-endian integer, is the initial counter plus i
      modulo 2^128. */
  lemma {:induction false} CounterValue(ctr: Block, i: nat)
    ensures BeValue(Iterate(Next, ctr, i)) == (BeValue(ctr) + i) % COUNTER_MODULUS
    decreases i
  {
    if i == 0 {
      CounterValueZero(ctr);
    } else {
      CounterValue(Next(ctr), i - 1);
      CounterValueStep(ctr, i);
    }
  }

  /** A last chunk of at most 16 bytes is xored with the leading bytes of
      one keystream block. */
  lemma CtrLastChunk(c: Cipher, ctr: Block, inp: seq<byte>)
    requires 0 < |inp| <= BLOCK_SIZE
    ensures CtrEncrypt(c, ctr, inp) == Xor(inp, c.encrypt(ctr)[..|inp|])
    ensures CtrKeystream(c, ctr, |inp|) == c.encrypt(ctr)[..|inp|]
  {
    var x := Xor(inp[..|inp|], c.encrypt(ctr)[..|inp|]);
    assert inp[..|inp|] == inp && inp[|inp|..] == [];
    assert CtrEncrypt(c, ctr, inp) == x + CtrEncrypt(c, Next(ctr), []);
    assert x + [] == x;
    if |inp| == BLOCK_SIZE {
      assert CtrKeystream(c, ctr, |inp|) == c.encrypt(ctr) + CtrKeystream(c, Next(ctr), 0);
      assert c.encrypt(ctr) + [] == c.encrypt(ctr)[..|inp|];
    }
  }

  /** A chunk of 16 bytes followed by more is xored with a whole
      keystream block. */
  lemma CtrFullChunk(c: Cipher, ctr: Block, inp: seq<byte>)
    requires |inp| > BLOCK_SIZE
    ensures CtrEncrypt(c, ctr, inp) ==
      Xor(inp[..BLOCK_SIZE], c.encrypt(ctr)) + CtrEncrypt(c, Next(ctr), inp[BLOCK_SIZE..])
  {
    var ks := c.encrypt(ctr);
    assert ks[..BLOCK_SIZE] == ks;
    assert CtrEncrypt(c, ctr, inp) ==
      Xor(inp[..BLOCK_SIZE], ks[..BLOCK_SIZE]) + CtrEncrypt(c, Increment(ctr), inp[BLOCK_SIZE..]);
  }

  /** CTR output is the input xored with the keystream. */
  lemma {:induction false} CtrIsKeystreamXor(c: Cipher, ctr: Block, inp: seq<byte>)
    ensures CtrEncrypt(c, ctr, inp) == Xor(inp, CtrKeystream(c, ctr, |inp|))
    decreases |inp|
  {
    if 0 < |inp| <= BLOCK_SIZE {
      CtrLastChunk(c, ctr, inp);
    } else if |inp| > BLOCK_SIZE {
      var rest := inp[BLOCK_SIZE..];
      CtrFullChunk(c, ctr, inp);
      assert CtrKeystream(c, ctr, |inp|) == c.encrypt(ctr) + CtrKeystream(c, Next(ctr), |rest|);
      CtrIsKeystreamXor(c, Next(ctr), rest);
      SplitFirst(inp);
      XorAppend(inp[..BLOCK_SIZE], rest, c.encrypt(ctr), CtrKeystream(c, Next(ctr), |rest|));
    }
  }

  /** Applying CTR twice from the same counter gives the input back, so
      CTR decryption is CTR encryption. */
  lemma CtrInvolution(c: Cipher, ctr: Block, inp: seq<byte>)
    ensures CtrEncrypt(c, ctr, CtrEncrypt(c, ctr, inp)) == inp
  {
    var ks := CtrKeystream(c, ctr, |inp|);
    CtrIsKeystreamXor(c, ctr, inp);
    CtrIsKeystreamXor(c, ctr, CtrEncrypt(c, ctr, inp));
    XorInvolution(inp, ks);
  }
}
