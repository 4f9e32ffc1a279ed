/** The worked example of Appendix A.1 of GB/T 32907-2016, carried through
    the model: with key and plaintext both
    01 23 45 67 89 AB CD EF FE DC BA 98 76 54 32 10
    sm4_key_schedule followed by sm4_encrypt gives
    68 1E DF 34 D2 06 96 5E 86 B3 E9 4F 53 6E 42 46.

    The words K[0..35] of the key expansion and X[0..35] of the round loop
    appear below as literals. Each KeyRound/CipherRound lemma evaluates one
    application of T' or T on the S-box; the Ck lemmas read CK. The step
    lemmas then thread a loop through those values with the mixer, the
    constants and the round function as parameters, so that no table is
    consulted while the loops are followed. */
module KnownAnswer {
  import opened Bytes
  import opened Tables
  import opened Round
  import opened BlockCipher
  import opened KeyExpansion

  /** The key, also used as the plaintext. */
  const KEY: Block := [
    0x01, 0x23, 0x45, 0x67, 0x89, 0xAB, 0xCD, 0xEF,
    0xFE, 0xDC, 0xBA, 0x98, 0x76, 0x54, 0x32, 0x10
  ]

  /** The ciphertext the standard gives. */
  const CIPHERTEXT: Block := [
    0x68, 0x1E, 0xDF, 0x34, 0xD2, 0x06, 0x96, 0x5E,
    0x86, 0xB3, 0xE9, 0x4F, 0x53, 0x6E, 0x42, 0x46
  ]

  /** K[0..3] = MK ^ FK. */
  lemma InitialWordsOfKey()
    ensures InitialWords(KEY) == [0xA292FFA1, 0xDF01FEBF, 0x99A12B0F, 0xC42410CC]
  {
    assert KeyWord(KEY, 0) == 0x01234567;
    assert KeyWord(KEY, 1) == 0x89ABCDEF;
    assert KeyWord(KEY, 2) == 0xFEDCBA98;
    assert KeyWord(KEY, 3) == 0x76543210;
  }

  /** X[0..3], the plaintext words. */
  lemma LoadOfKey()
    ensures Load(KEY) == State(0x01234567, 0x89ABCDEF, 0xFEDCBA98, 0x76543210)
  {
  }

  /** R(X[32..35]) written out. */
  lemma StoreOfCiphertext()
    ensures Store(State(0x681EDF34, 0xD206965E, 0x86B3E94F, 0x536E4246)) == CIPHERTEXT
  {
  }

  lemma Ck0()
    ensures CK[0] == 0x00070E15 && CK[1] == 0x1C232A31 && CK[2] == 0x383F464D && CK[3] == 0x545B6269
  {
  }

  lemma Ck4()
    ensures CK[4] == 0x70777E85 && CK[5] == 0x8C939AA1 && CK[6] == 0xA8AFB6BD && CK[7] == 0xC4CBD2D9
  {
  }

  lemma Ck8()
    ensures CK[8] == 0xE0E7EEF5 && CK[9] == 0xFC030A11 && CK[10] == 0x181F262D && CK[11] == 0x343B4249
  {
  }

  lemma Ck12()
    ensures CK[12] == 0x50575E65 && CK[13] == 0x6C737A81 && CK[14] == 0x888F969D && CK[15] == 0xA4ABB2B9
  {
  }

  lemma Ck16()
    ensures CK[16] == 0xC0C7CED5 && CK[17] == 0xDCE3EAF1 && CK[18] == 0xF8FF060D && CK[19] == 0x141B2229
  {
  }

  lemma Ck20()
    ensures CK[20] == 0x30373E45 && CK[21] == 0x4C535A61 && CK[22] == 0x686F767D && CK[23] == 0x848B9299
  {
  }

  lemma Ck24()
    ensures CK[24] == 0xA0A7AEB5 && CK[25] == 0xBCC3CAD1 && CK[26] == 0xD8DFE6ED && CK[27] == 0xF4FB0209
  {
  }

  lemma Ck28()
    ensures CK[28] == 0x10171E25 && CK[29] == 0x2C333A41 && CK[30] == 0x484F565D && CK[31] == 0x646B7279
  {
  }

  /** Iteration 0 of the expansion loop: K[4] = K[0] ^ T'(0x8283CB69). */
  lemma KeyRound0()
    ensures Tp(0x8283CB69) == 0x53B37958
  {
    assert ByteOf(0x8283CB69, 0) == 0x82 && ByteOf(0x8283CB69, 1) == 0x83 && ByteOf(0x8283CB69, 2) == 0xCB && ByteOf(0x8283CB69, 3) == 0x69;
    assert S(0x82) == 0x8A && S(0x83) == 0xD2 && S(0xCB) == 0x41 && S(0x69) == 0x22;
    assert Tau(0x8283CB69) == PackWord(0x8A, 0xD2, 0x41, 0x22) == 0x8AD24122;
  }

  /** Iteration 1 of the expansion loop: K[5] = K[1] ^ T'(0xB087970B). */
  lemma KeyRound1()
    ensures Tp(0xB087970B) == 0x9E67D5DE
  {
    assert ByteOf(0xB087970B, 0) == 0xB0 && ByteOf(0xB087970B, 1) == 0x87 && ByteOf(0xB087970B, 2) == 0x97 && ByteOf(0xB087970B, 3) == 0x0B;
    assert S(0xB0) == 0xD5 && S(0x87) == 0xB5 && S(0x97) == 0x55 && S(0x0B) == 0xC2;
    assert Tau(0xB087970B) == PackWord(0xD5, 0xB5, 0x55, 0xC2) == 0xD5B555C2;
  }

  /** Iteration 2 of the expansion loop: K[6] = K[2] ^ T'(0x4C5CFB19). */
  lemma KeyRound2()
    ensures Tp(0x4C5CFB19) == 0xC3CB9A95
  {
    assert ByteOf(0x4C5CFB19, 0) == 0x4C && ByteOf(0x4C5CFB19, 1) == 0x5C && ByteOf(0x4C5CFB19, 2) == 0xFB && ByteOf(0x4C5CFB19, 3) == 0x19;
    assert S(0x4C) == 0xE6 && S(0x5C) == 0x70 && S(0xFB) == 0x3E && S(0x19) == 0x44;
    assert Tau(0x4C5CFB19) == PackWord(0xE6, 0x70, 0x3E, 0x44) == 0xE6703E44;
  }

  /** Iteration 3 of the expansion loop: K[7] = K[3] ^ T'(0xBE767E6B). */
  lemma KeyRound3()
    ensures Tp(0xBE767E6B) == 0xBF8D30BB
  {
    assert ByteOf(0xBE767E6B, 0) == 0xBE && ByteOf(0xBE767E6B, 1) == 0x76 && ByteOf(0xBE767E6B, 2) == 0x7E && ByteOf(0xBE767E6B, 3) == 0x6B;
    assert S(0xBE) == 0x5B && S(0x76) == 0x27 && S(0x7E) == 0xC8 && S(0x6B) == 0x3B;
    assert Tau(0xBE767E6B) == PackWord(0x5B, 0x27, 0xC8, 0x3B) == 0x5B27C83B;
  }

  /** Iteration 4 of the expansion loop: K[8] = K[4] ^ T'(0x10D2C409). */
  lemma KeyRound4()
    ensures Tp(0x10D2C409) == 0xC752E60D
  {
    assert ByteOf(0x10D2C409, 0) == 0x10 && ByteOf(0x10D2C409, 1) == 0xD2 && ByteOf(0x10D2C409, 2) == 0xC4 && ByteOf(0x10D2C409, 3) == 0x09;
    assert S(0x10) == 0x2B && S(0xD2) == 0x31 && S(0xC4) == 0xBB && S(0x09) == 0xB6;
    assert Tau(0x10D2C409) == PackWord(0x2B, 0x31, 0xBB, 0xB6) == 0x2B31BBB6;
  }

  /** Iteration 5 of the expansion loop: K[9] = K[5] ^ T'(0x9B236BB8). */
  lemma KeyRound5()
    ensures Tp(0x9B236BB8) == 0x360C2700
  {
    assert ByteOf(0x9B236BB8, 0) == 0x9B && ByteOf(0x9B236BB8, 1) == 0x23 && ByteOf(0x9B236BB8, 2) == 0x6B && ByteOf(0x9B236BB8, 3) == 0xB8;
    assert S(0x9B) == 0x30 && S(0x23) == 0xF4 && S(0x6B) == 0x3B && S(0xB8) == 0x03;
    assert Tau(0x9B236BB8) == PackWord(0x30, 0xF4, 0x3B, 0x03) == 0x30F43B03;
  }

  /** Iteration 6 of the expansion loop: K[10] = K[6] ^ T'(0x921FFA5F). */
  lemma KeyRound6()
    ensures Tp(0x921FFA5F) == 0xECD13829
  {
    assert ByteOf(0x921FFA5F, 0) == 0x92 && ByteOf(0x921FFA5F, 1) == 0x1F && ByteOf(0x921FFA5F, 2) == 0xFA && ByteOf(0x921FFA5F, 3) == 0x5F;
    assert S(0x92) == 0x5D && S(0x1F) == 0x99 && S(0xFA) == 0x5F && S(0x5F) == 0x35;
    assert Tau(0x921FFA5F) == PackWord(0x5D, 0x99, 0x5F, 0x35) == 0x5D995F35;
  }

  /** Iteration 7 of the expansion loop: K[11] = K[7] ^ T'(0x336937FF). */
  lemma KeyRound7()
    ensures Tp(0x336937FF) == 0x5FDF1126
  {
    assert ByteOf(0x336937FF, 0) == 0x33 && ByteOf(0x336937FF, 1) == 0x69 && ByteOf(0x336937FF, 2) == 0x37 && ByteOf(0x336937FF, 3) == 0xFF;
    assert S(0x33) == 0xA9 && S(0x69) == 0x22 && S(0x37) == 0x95 && S(0xFF) == 0x48;
    assert Tau(0x336937FF) == PackWord(0xA9, 0x22, 0x95, 0x48) == 0xA9229548;
  }

  /** Iteration 8 of the expansion loop: K[12] = K[8] ^ T'(0x05405A76). */
  lemma KeyRound8()
    ensures Tp(0x05405A76) == 0x93535088
  {
    assert ByteOf(0x05405A76, 0) == 0x05 && ByteOf(0x05405A76, 1) == 0x40 && ByteOf(0x05405A76, 2) == 0x5A && ByteOf(0x05405A76, 3) == 0x76;
    assert S(0x05) == 0xE1 && S(0x40) == 0x47 && S(0x5A) == 0x0F && S(0x76) == 0x27;
    assert Tau(0x05405A76) == PackWord(0xE1, 0x47, 0x0F, 0x27) == 0xE1470F27;
  }

  /** Iteration 9 of the expansion loop: K[13] = K[9] ^ T'(0xCBEE828F). */
  lemma KeyRound9()
    ensures Tp(0xCBEE828F) == 0xC03241DC
  {
    assert ByteOf(0xCBEE828F, 0) == 0xCB && ByteOf(0xCBEE828F, 1) == 0xEE && ByteOf(0xCBEE828F, 2) == 0x82 && ByteOf(0xCBEE828F, 3) == 0x8F;
    assert S(0xCB) == 0x41 && S(0xEE) == 0xC6 && S(0x82) == 0x8A && S(0x8F) == 0xA1;
    assert Tau(0xCBEE828F) == PackWord(0x41, 0xC6, 0x8A, 0xA1) == 0x41C68AA1;
  }

  /** Iteration 10 of the expansion loop: K[14] = K[10] ^ T'(0x2E116ABD). */
  lemma KeyRound10()
    ensures Tp(0x2E116ABD) == 0x75BCDA5E
  {
    assert ByteOf(0x2E116ABD, 0) == 0x2E && ByteOf(0x2E116ABD, 1) == 0x11 && ByteOf(0x2E116ABD, 2) == 0x6A && ByteOf(0x2E116ABD, 3) == 0xBD;
    assert S(0x2E) == 0xAC && S(0x11) == 0x67 && S(0x6A) == 0x7C && S(0xBD) == 0x6C;
    assert Tau(0x2E116ABD) == PackWord(0xAC, 0x67, 0x7C, 0x6C) == 0xAC677C6C;
  }

  /** Iteration 11 of the expansion loop: K[15] = K[11] ^ T'(0xE5446C65). */
  lemma KeyRound11()
    ensures Tp(0xE5446C65) == 0x5A936A06
  {
    assert ByteOf(0xE5446C65, 0) == 0xE5 && ByteOf(0xE5446C65, 1) == 0x44 && ByteOf(0xE5446C65, 2) == 0x6C && ByteOf(0xE5446C65, 3) == 0x65;
    assert S(0xE5) == 0x96 && S(0x44) == 0xF3 && S(0x6C) == 0x01 && S(0x65) == 0x58;
    assert Tau(0xE5446C65) == PackWord(0x96, 0xF3, 0x01, 0x58) == 0x96F30158;
  }

  /** Iteration 12 of the expansion loop: K[16] = K[12] ^ T'(0x5AED1B62). */
  lemma KeyRound12()
    ensures Tp(0x5AED1B62) == 0xCCA850F0
  {
    assert ByteOf(0x5AED1B62, 0) == 0x5A && ByteOf(0x5AED1B62, 1) == 0xED && ByteOf(0x5AED1B62, 2) == 0x1B && ByteOf(0x5AED1B62, 3) == 0x62;
    assert S(0x5A) == 0x0F && S(0xED) == 0x6E && S(0x1B) == 0x26 && S(0x62) == 0x0E;
    assert Tau(0x5AED1B62) == PackWord(0x0F, 0x6E, 0x26, 0x0E) == 0x0F6E260E;
  }

  /** Iteration 13 of the expansion loop: K[17] = K[13] ^ T'(0xB81912B7). */
  lemma KeyRound13()
    ensures Tp(0xB81912B7) == 0x8780D80A
  {
    assert ByteOf(0xB81912B7, 0) == 0xB8 && ByteOf(0xB81912B7, 1) == 0x19 && ByteOf(0xB81912B7, 2) == 0x12 && ByteOf(0xB81912B7, 3) == 0xB7;
    assert S(0xB8) == 0x03 && S(0x19) == 0x44 && S(0x12) == 0x9A && S(0xB7) == 0x2F;
    assert Tau(0xB81912B7) == PackWord(0x03, 0x44, 0x9A, 0x2F) == 0x03449A2F;
  }

  /** Iteration 14 of the expansion loop: K[18] = K[14] ^ T'(0xAF3A38F1). */
  lemma KeyRound14()
    ensures Tp(0xAF3A38F1) == 0x87BD4742
  {
    assert ByteOf(0xAF3A38F1, 0) == 0xAF && ByteOf(0xAF3A38F1, 1) == 0x3A && ByteOf(0xAF3A38F1, 2) == 0x38 && ByteOf(0xAF3A38F1, 3) == 0xF1;
    assert S(0xAF) == 0x6F && S(0x3A) == 0x94 && S(0x38) == 0x80 && S(0xF1) == 0xF0;
    assert Tau(0xAF3A38F1) == PackWord(0x6F, 0x94, 0x80, 0xF0) == 0x6F9480F0;
  }

  /** Iteration 15 of the expansion loop: K[19] = K[15] ^ T'(0xB941532D). */
  lemma KeyRound15()
    ensures Tp(0xB941532D) == 0x6EA1CEF6
  {
    assert ByteOf(0xB941532D, 0) == 0xB9 && ByteOf(0xB941532D, 1) == 0x41 && ByteOf(0xB941532D, 2) == 0x53 && ByteOf(0xB941532D, 3) == 0x2D;
    assert S(0xB9) == 0xFF && S(0x41) == 0x07 && S(0x53) == 0xB2 && S(0x2D) == 0xCF;
    assert Tau(0xB941532D) == PackWord(0xFF, 0x07, 0xB2, 0xCF) == 0xFF07B2CF;
  }

  /** Iteration 16 of the expansion loop: K[20] = K[16] ^ T'(0xA4E1DA6C). */
  lemma KeyRound16()
    ensures Tp(0xA4E1DA6C) == 0xB8A8D4A4
  {
    assert ByteOf(0xA4E1DA6C, 0) == 0xA4 && ByteOf(0xA4E1DA6C, 1) == 0xE1 && ByteOf(0xA4E1DA6C, 2) == 0xDA && ByteOf(0xA4E1DA6C, 3) == 0x6C;
    assert S(0xA4) == 0x82 && S(0xE1) == 0x69 && S(0xDA) == 0xD0 && S(0x6C) == 0x01;
    assert Tau(0xA4E1DA6C) == PackWord(0x82, 0x69, 0xD0, 0x01) == 0x8269D001;
  }

  /** Iteration 17 of the expansion loop: K[21] = K[17] ^ T'(0x593DDFD7). */
  lemma KeyRound17()
    ensures Tp(0x593DDFD7) == 0x436DCA14
  {
    assert ByteOf(0x593DDFD7, 0) == 0x59 && ByteOf(0x593DDFD7, 1) == 0x3D && ByteOf(0x593DDFD7, 2) == 0xDF && ByteOf(0x593DDFD7, 3) == 0xD7;
    assert S(0x59) == 0xEB && S(0x3D) == 0x8F && S(0xDF) == 0xB0 && S(0xD7) == 0xBD;
    assert Tau(0x593DDFD7) == PackWord(0xEB, 0x8F, 0xB0, 0xBD) == 0xEB8FB0BD;
  }

  /** Iteration 18 of the expansion loop: K[22] = K[18] ^ T'(0x4A2E7827). */
  lemma KeyRound18()
    ensures Tp(0x4A2E7827) == 0x883D5DC9
  {
    assert ByteOf(0x4A2E7827, 0) == 0x4A && ByteOf(0x4A2E7827, 1) == 0x2E && ByteOf(0x4A2E7827, 2) == 0x78 && ByteOf(0x4A2E7827, 3) == 0x27;
    assert S(0x4A) == 0x3C && S(0x2E) == 0xAC && S(0x78) == 0x4C && S(0x27) == 0x7A;
    assert Tau(0x4A2E7827) == PackWord(0x3C, 0xAC, 0x4C, 0x7A) == 0x3CAC4C7A;
  }

  /** Iteration 19 of the expansion loop: K[23] = K[19] ^ T'(0x7A0980C4). */
  lemma KeyRound19()
    ensures Tp(0x7A0980C4) == 0x8260D198
  {
    assert ByteOf(0x7A0980C4, 0) == 0x7A && ByteOf(0x7A0980C4, 1) == 0x09 && ByteOf(0x7A0980C4, 2) == 0x80 && ByteOf(0x7A0980C4, 3) == 0xC4;
    assert S(0x7A) == 0x02 && S(0x09) == 0xB6 && S(0x80) == 0xEA && S(0xC4) == 0xBB;
    assert Tau(0x7A0980C4) == PackWord(0x02, 0xB6, 0xEA, 0xBB) == 0x02B6EABB;
  }

  /** Iteration 20 of the expansion loop: K[24] = K[20] ^ T'(0x1D216CB9). */
  lemma KeyRound20()
    ensures Tp(0x1D216CB9) == 0x39BED037
  {
    assert ByteOf(0x1D216CB9, 0) == 0x1D && ByteOf(0x1D216CB9, 1) == 0x21 && ByteOf(0x1D216CB9, 2) == 0x6C && ByteOf(0x1D216CB9, 3) == 0xB9;
    assert S(0x1D) == 0x86 && S(0x21) == 0x42 && S(0x6C) == 0x01 && S(0xB9) == 0xFF;
    assert Tau(0x1D216CB9) == PackWord(0x86, 0x42, 0x01, 0xFF) == 0x864201FF;
  }

  /** Iteration 21 of the expansion loop: K[25] = K[21] ^ T'(0xFA6E3321). */
  lemma KeyRound21()
    ensures Tp(0xFA6E3321) == 0xEB7F5EF9
  {
    assert ByteOf(0xFA6E3321, 0) == 0xFA && ByteOf(0xFA6E3321, 1) == 0x6E && ByteOf(0xFA6E3321, 2) == 0x33 && ByteOf(0xFA6E3321, 3) == 0x21;
    assert S(0xFA) == 0x5F && S(0x6E) == 0x78 && S(0x33) == 0xA9 && S(0x21) == 0x42;
    assert Tau(0xFA6E3321) == PackWord(0x5F, 0x78, 0xA9, 0x42) == 0x5F78A942;
  }

  /** Iteration 22 of the expansion loop: K[26] = K[22] ^ T'(0x8A1F5701). */
  lemma KeyRound22()
    ensures Tp(0x8A1F5701) == 0x0B92D906
  {
    assert ByteOf(0x8A1F5701, 0) == 0x8A && ByteOf(0x8A1F5701, 1) == 0x1F && ByteOf(0x8A1F5701, 2) == 0x57 && ByteOf(0x8A1F5701, 3) == 0x01;
    assert S(0x8A) == 0xF2 && S(0x1F) == 0x99 && S(0x57) == 0x8B && S(0x01) == 0x90;
    assert Tau(0x8A1F5701) == PackWord(0xF2, 0x99, 0x8B, 0x90) == 0xF2998B90;
  }

  /** Iteration 23 of the expansion loop: K[27] = K[23] ^ T'(0x33CA67BC). */
  lemma KeyRound23()
    ensures Tp(0x33CA67BC) == 0x0BC5B917
  {
    assert ByteOf(0x33CA67BC, 0) == 0x33 && ByteOf(0x33CA67BC, 1) == 0xCA && ByteOf(0x33CA67BC, 2) == 0x67 && ByteOf(0x33CA67BC, 3) == 0xBC;
    assert S(0x33) == 0xA9 && S(0xCA) == 0x5C && S(0x67) == 0xA2 && S(0xBC) == 0x6D;
    assert Tau(0x33CA67BC) == PackWord(0xA9, 0x5C, 0xA2, 0x6D) == 0xA95CA26D;
  }

  /** Iteration 24 of the expansion loop: K[28] = K[24] ^ T'(0x6699C2A1). */
  lemma KeyRound24()
    ensures Tp(0x6699C2A1) == 0x5F05BC13
  {
    assert ByteOf(0x6699C2A1, 0) == 0x66 && ByteOf(0x6699C2A1, 1) == 0x99 && ByteOf(0x6699C2A1, 2) == 0xC2 && ByteOf(0x6699C2A1, 3) == 0xA1;
    assert S(0x66) == 0xD1 && S(0x99) == 0x93 && S(0xC2) == 0xAF && S(0xA1) == 0xF6;
    assert Tau(0x6699C2A1) == PackWord(0xD1, 0x93, 0xAF, 0xF6) == 0xD193AFF6;
  }

  /** Iteration 25 of the expansion loop: K[29] = K[25] ^ T'(0x55AC7F93). */
  lemma KeyRound25()
    ensures Tp(0x55AC7F93) == 0x85EB14EA
  {
    assert ByteOf(0x55AC7F93, 0) == 0x55 && ByteOf(0x55AC7F93, 1) == 0xAC && ByteOf(0x55AC7F93, 2) == 0x7F && ByteOf(0x55AC7F93, 3) == 0x93;
    assert S(0x55) == 0x64 && S(0xAC) == 0x0D && S(0x7F) == 0x9E && S(0x93) == 0xA4;
    assert Tau(0x55AC7F93) == PackWord(0x64, 0x0D, 0x9E, 0xA4) == 0x640D9EA4;
  }

  /** Iteration 26 of the expansion loop: K[30] = K[26] ^ T'(0xEB84D67F). */
  lemma KeyRound26()
    ensures Tp(0xEB84D67F) == 0xC9371A8B
  {
    assert ByteOf(0xEB84D67F, 0) == 0xEB && ByteOf(0xEB84D67F, 1) == 0x84 && ByteOf(0xEB84D67F, 2) == 0xD6 && ByteOf(0xEB84D67F, 3) == 0x7F;
    assert S(0xEB) == 0x09 && S(0x84) == 0x40 && S(0xD6) == 0x7B && S(0x7F) == 0x9E;
    assert Tau(0xEB84D67F) == PackWord(0x09, 0x40, 0x7B, 0x9E) == 0x09407B9E;
  }

  /** Iteration 27 of the expansion loop: K[31] = K[27] ^ T'(0x5063455E). */
  lemma KeyRound27()
    ensures Tp(0x5063455E) == 0x6899F1AF
  {
    assert ByteOf(0x5063455E, 0) == 0x50 && ByteOf(0x5063455E, 1) == 0x63 && ByteOf(0x5063455E, 2) == 0x45 && ByteOf(0x5063455E, 3) == 0x5E;
    assert S(0x50) == 0x68 && S(0x63) == 0x5E && S(0x45) == 0x73 && S(0x5E) == 0x9D;
    assert Tau(0x5063455E) == PackWord(0x68, 0x5E, 0x73, 0x9D) == 0x685E739D;
  }

  /** Iteration 28 of the expansion loop: K[32] = K[28] ^ T'(0xF26C8DFF). */
  lemma KeyRound28()
    ensures Tp(0xF26C8DFF) == 0xF516EE58
  {
    assert ByteOf(0xF26C8DFF, 0) == 0xF2 && ByteOf(0xF26C8DFF, 1) == 0x6C && ByteOf(0xF26C8DFF, 2) == 0x8D && ByteOf(0xF26C8DFF, 3) == 0xFF;
    assert S(0xF2) == 0x7D && S(0x6C) == 0x01 && S(0x8D) == 0x61 && S(0xFF) == 0x48;
    assert Tau(0xF26C8DFF) == PackWord(0x7D, 0x01, 0x61, 0x48) == 0x7D016148;
  }

  /** Iteration 29 of the expansion loop: K[33] = K[29] ^ T'(0x91E48A7F). */
  lemma KeyRound29()
    ensures Tp(0x91E48A7F) == 0x7F082126
  {
    assert ByteOf(0x91E48A7F, 0) == 0x91 && ByteOf(0x91E48A7F, 1) == 0xE4 && ByteOf(0x91E48A7F, 2) == 0x8A && ByteOf(0x91E48A7F, 3) == 0x7F;
    assert S(0x91) == 0xAE && S(0xE4) == 0x0C && S(0x8A) == 0xF2 && S(0x7F) == 0x9E;
    assert Tau(0x91E48A7F) == PackWord(0xAE, 0x0C, 0xF2, 0x9E) == 0xAE0CF29E;
  }

  /** Iteration 30 of the expansion loop: K[34] = K[30] ^ T'(0x9993581E). */
  lemma KeyRound30()
    ensures Tp(0x9993581E) == 0x0FEDF80E
  {
    assert ByteOf(0x9993581E, 0) == 0x99 && ByteOf(0x9993581E, 1) == 0x93 && ByteOf(0x9993581E, 2) == 0x58 && ByteOf(0x9993581E, 3) == 0x1E;
    assert S(0x99) == 0x93 && S(0x93) == 0xA4 && S(0x58) == 0xF8 && S(0x1E) == 0x06;
    assert Tau(0x9993581E) == PackWord(0x93, 0xA4, 0xF8, 0x06) == 0x93A4F806;
  }

  /** Iteration 31 of the expansion loop: K[35] = K[31] ^ T'(0x4500025E). */
  lemma KeyRound31()
    ensures Tp(0x4500025E) == 0x605CAC93
  {
    assert ByteOf(0x4500025E, 0) == 0x45 && ByteOf(0x4500025E, 1) == 0x00 && ByteOf(0x4500025E, 2) == 0x02 && ByteOf(0x4500025E, 3) == 0x5E;
    assert S(0x45) == 0x73 && S(0x00) == 0xD6 && S(0x02) == 0xE9 && S(0x5E) == 0x9D;
    assert Tau(0x4500025E) == PackWord(0x73, 0xD6, 0xE9, 0x9D) == 0x73D6E99D;
  }

  /** Round 0 of the encryption loop: X[4] = X[0] ^ T(0xF002C39E). */
  lemma CipherRound0()
    ensures T(0xF002C39E) == 0x26D99622
  {
    assert ByteOf(0xF002C39E, 0) == 0xF0 && ByteOf(0xF002C39E, 1) == 0x02 && ByteOf(0xF002C39E, 2) == 0xC3 && ByteOf(0xF002C39E, 3) == 0x9E;
    assert S(0xF0) == 0x18 && S(0x02) == 0xE9 && S(0xC3) == 0x92 && S(0x9E) == 0xB1;
    assert Tau(0xF002C39E) == PackWord(0x18, 0xE9, 0x92, 0xB1) == 0x18E992B1;
  }

  /** Round 1 of the encryption loop: X[5] = X[1] ^ T(0xEE1470AC). */
  lemma CipherRound1()
    ensures T(0xEE1470AC) == 0x2820815D
  {
    assert ByteOf(0xEE1470AC, 0) == 0xEE && ByteOf(0xEE1470AC, 1) == 0x14 && ByteOf(0xEE1470AC, 2) == 0x70 && ByteOf(0xEE1470AC, 3) == 0xAC;
    assert S(0xEE) == 0xC6 && S(0x14) == 0x2A && S(0x70) == 0xD4 && S(0xAC) == 0x0D;
    assert Tau(0xEE1470AC) == PackWord(0xC6, 0x2A, 0xD4, 0x0D) == 0xC62AD40D;
  }

  /** Round 2 of the encryption loop: X[6] = X[2] ^ T(0xAA4F1C7D). */
  lemma CipherRound2()
    ensures T(0xAA4F1C7D) == 0xEF1D58B2
  {
    assert ByteOf(0xAA4F1C7D, 0) == 0xAA && ByteOf(0xAA4F1C7D, 1) == 0x4F && ByteOf(0xAA4F1C7D, 2) == 0x1C && ByteOf(0xAA4F1C7D, 3) == 0x7D;
    assert S(0xAA) == 0x23 && S(0x4F) == 0xA8 && S(0x1C) == 0x49 && S(0x7D) == 0xC4;
    assert Tau(0xAA4F1C7D) == PackWord(0x23, 0xA8, 0x49, 0xC4) == 0x23A849C4;
  }

  /** Round 3 of the encryption loop: X[7] = X[3] ^ T(0xEC195DAA). */
  lemma CipherRound3()
    ensures T(0xEC195DAA) == 0xBA47D0FE
  {
    assert ByteOf(0xEC195DAA, 0) == 0xEC && ByteOf(0xEC195DAA, 1) == 0x19 && ByteOf(0xEC195DAA, 2) == 0x5D && ByteOf(0xEC195DAA, 3) == 0xAA;
    assert S(0xEC) == 0xC5 && S(0x19) == 0x44 && S(0x5D) == 0x56 && S(0xAA) == 0x23;
    assert Tau(0xEC195DAA) == PackWord(0xC5, 0x44, 0x56, 0x23) == 0xC5445623;
  }

  /** Round 4 of the encryption loop: X[8] = X[4] ^ T(0x4A2A2C82). */
  lemma CipherRound4()
    ensures T(0x4A2A2C82) == 0xDF868890
  {
    assert ByteOf(0x4A2A2C82, 0) == 0x4A && ByteOf(0x4A2A2C82, 1) == 0x2A && ByteOf(0x4A2A2C82, 2) == 0x2C && ByteOf(0x4A2A2C82, 3) == 0x82;
    assert S(0x4A) == 0x3C && S(0x2A) == 0x0B && S(0x2C) == 0xED && S(0x82) == 0x8A;
    assert Tau(0x4A2A2C82) == PackWord(0x3C, 0x0B, 0xED, 0x8A) == 0x3C0BED8A;
  }

  /** Round 5 of the encryption loop: X[9] = X[5] ^ T(0x52C45770). */
  lemma CipherRound5()
    ensures T(0x52C45770) == 0x92A94BE5
  {
    assert ByteOf(0x52C45770, 0) == 0x52 && ByteOf(0x52C45770, 1) == 0xC4 && ByteOf(0x52C45770, 2) == 0x57 && ByteOf(0x52C45770, 3) == 0x70;
    assert S(0x52) == 0x81 && S(0xC4) == 0xBB && S(0x57) == 0x8B && S(0x70) == 0xD4;
    assert Tau(0x52C45770) == PackWord(0x81, 0xBB, 0x8B, 0xD4) == 0x81BB8BD4;
  }

  /** Round 6 of the encryption loop: X[10] = X[6] ^ T(0xB1F637DF). */
  lemma CipherRound6()
    ensures T(0xB1F637DF) == 0x663520BD
  {
    assert ByteOf(0xB1F637DF, 0) == 0xB1 && ByteOf(0xB1F637DF, 1) == 0xF6 && ByteOf(0xB1F637DF, 2) == 0x37 && ByteOf(0xB1F637DF, 3) == 0xDF;
    assert S(0xB1) == 0xDB && S(0xF6) == 0x4D && S(0x37) == 0x95 && S(0xDF) == 0xB0;
    assert Tau(0xB1F637DF) == PackWord(0xDB, 0x4D, 0x95, 0xB0) == 0xDB4D95B0;
  }

  /** Round 7 of the encryption loop: X[11] = X[7] ^ T(0x98DCAF44). */
  lemma CipherRound7()
    ensures T(0x98DCAF44) == 0xB6851005
  {
    assert ByteOf(0x98DCAF44, 0) == 0x98 && ByteOf(0x98DCAF44, 1) == 0xDC && ByteOf(0x98DCAF44, 2) == 0xAF && ByteOf(0x98DCAF44, 3) == 0x44;
    assert S(0x98) == 0xAD && S(0xDC) == 0xB8 && S(0xAF) == 0x6F && S(0x44) == 0xF3;
    assert Tau(0x98DCAF44) == PackWord(0xAD, 0xB8, 0x6F, 0xF3) == 0xADB86FF3;
  }

  /** Round 8 of the encryption loop: X[12] = X[8] ^ T(0x9B600757). */
  lemma CipherRound8()
    ensures T(0x9B600757) == 0xDFA69BAA
  {
    assert ByteOf(0x9B600757, 0) == 0x9B && ByteOf(0x9B600757, 1) == 0x60 && ByteOf(0x9B600757, 2) == 0x07 && ByteOf(0x9B600757, 3) == 0x57;
    assert S(0x9B) == 0x30 && S(0x60) == 0x1E && S(0x07) == 0xB7 && S(0x57) == 0x8B;
    assert Tau(0x9B600757) == PackWord(0x30, 0x1E, 0xB7, 0x8B) == 0x301EB78B;
  }

  /** Round 9 of the encryption loop: X[13] = X[9] ^ T(0x9DE0BDBE). */
  lemma CipherRound9()
    ensures T(0x9DE0BDBE) == 0x71FF084E
  {
    assert ByteOf(0x9DE0BDBE, 0) == 0x9D && ByteOf(0x9DE0BDBE, 1) == 0xE0 && ByteOf(0x9DE0BDBE, 2) == 0xBD && ByteOf(0x9DE0BDBE, 3) == 0xBE;
    assert S(0x9D) == 0x8C && S(0xE0) == 0x89 && S(0xBD) == 0x6C && S(0xBE) == 0x5B;
    assert Tau(0x9DE0BDBE) == PackWord(0x8C, 0x89, 0x6C, 0x5B) == 0x8C896C5B;
  }

  /** Round 10 of the encryption loop: X[14] = X[10] ^ T(0xDC966E60). */
  lemma CipherRound10()
    ensures T(0xDC966E60) == 0xCF511895
  {
    assert ByteOf(0xDC966E60, 0) == 0xDC && ByteOf(0xDC966E60, 1) == 0x96 && ByteOf(0xDC966E60, 2) == 0x6E && ByteOf(0xDC966E60, 3) == 0x60;
    assert S(0xDC) == 0xB8 && S(0x96) == 0x1A && S(0x6E) == 0x78 && S(0x60) == 0x1E;
    assert Tau(0xDC966E60) == PackWord(0xB8, 0x1A, 0x78, 0x1E) == 0xB81A781E;
  }

  /** Round 11 of the encryption loop: X[15] = X[11] ^ T(0xA3474E33). */
  lemma CipherRound11()
    ensures T(0xA3474E33) == 0xEAE7D511
  {
    assert ByteOf(0xA3474E33, 0) == 0xA3 && ByteOf(0xA3474E33, 1) == 0x47 && ByteOf(0xA3474E33, 2) == 0x4E && ByteOf(0xA3474E33, 3) == 0x33;
    assert S(0xA3) == 0x2E && S(0x47) == 0xBA && S(0x4E) == 0x4F && S(0x33) == 0xA9;
    assert Tau(0xA3474E33) == PackWord(0x2E, 0xBA, 0x4F, 0xA9) == 0x2EBA4FA9;
  }

  /** Round 12 of the encryption loop: X[16] = X[12] ^ T(0x0381926D). */
  lemma CipherRound12()
    ensures T(0x0381926D) == 0xAC4FEBFC
  {
    assert ByteOf(0x0381926D, 0) == 0x03 && ByteOf(0x0381926D, 1) == 0x81 && ByteOf(0x0381926D, 2) == 0x92 && ByteOf(0x0381926D, 3) == 0x6D;
    assert S(0x03) == 0xFE && S(0x81) == 0xBF && S(0x92) == 0x5D && S(0x6D) == 0x21;
    assert Tau(0x0381926D) == PackWord(0xFE, 0xBF, 0x5D, 0x21) == 0xFEBF5D21;
  }

  /** Round 13 of the encryption loop: X[17] = X[13] ^ T(0x939943CC). */
  lemma CipherRound13()
    ensures T(0x939943CC) == 0x96F67340
  {
    assert ByteOf(0x939943CC, 0) == 0x93 && ByteOf(0x939943CC, 1) == 0x99 && ByteOf(0x939943CC, 2) == 0x43 && ByteOf(0x939943CC, 3) == 0xCC;
    assert S(0x93) == 0xA4 && S(0x99) == 0x93 && S(0x43) == 0xFC && S(0xCC) == 0x1F;
    assert Tau(0x939943CC) == PackWord(0xA4, 0x93, 0xFC, 0x1F) == 0xA493FC1F;
  }

  /** Round 14 of the encryption loop: X[18] = X[14] ^ T(0x8B75648F). */
  lemma CipherRound14()
    ensures T(0x8B75648F) == 0x97598233
  {
    assert ByteOf(0x8B75648F, 0) == 0x8B && ByteOf(0x8B75648F, 1) == 0x75 && ByteOf(0x8B75648F, 2) == 0x64 && ByteOf(0x8B75648F, 3) == 0x8F;
    assert S(0x8B) == 0xCE && S(0x75) == 0xD3 && S(0x64) == 0x63 && S(0x8F) == 0xA1;
    assert Tau(0x8B75648F) == PackWord(0xCE, 0xD3, 0x63, 0xA1) == 0xCED363A1;
  }

  /** Round 15 of the encryption loop: X[19] = X[15] ^ T(0x60069A4A). */
  lemma CipherRound15()
    ensures T(0x60069A4A) == 0x66EF4F72
  {
    assert ByteOf(0x60069A4A, 0) == 0x60 && ByteOf(0x60069A4A, 1) == 0x06 && ByteOf(0x60069A4A, 2) == 0x9A && ByteOf(0x60069A4A, 3) == 0x4A;
    assert S(0x60) == 0x1E && S(0x06) == 0x3D && S(0x9A) == 0x32 && S(0x4A) == 0x3C;
    assert Tau(0x60069A4A) == PackWord(0x1E, 0x3D, 0x32, 0x3C) == 0x1E3D323C;
  }

  /** Round 16 of the encryption loop: X[20] = X[16] ^ T(0xDC69F8C8). */
  lemma CipherRound16()
    ensures T(0xDC69F8C8) == 0x24B11947
  {
    assert ByteOf(0xDC69F8C8, 0) == 0xDC && ByteOf(0xDC69F8C8, 1) == 0x69 && ByteOf(0xDC69F8C8, 2) == 0xF8 && ByteOf(0xDC69F8C8, 3) == 0xC8;
    assert S(0xDC) == 0xB8 && S(0x69) == 0x22 && S(0xF8) == 0x79 && S(0xC8) == 0x11;
    assert Tau(0xDC69F8C8) == PackWord(0xB8, 0x22, 0x79, 0x11) == 0xB8227911;
  }

  /** Round 17 of the encryption loop: X[21] = X[17] ^ T(0x05F35DDE). */
  lemma CipherRound17()
    ensures T(0x05F35DDE) == 0x3935B407
  {
    assert ByteOf(0x05F35DDE, 0) == 0x05 && ByteOf(0x05F35DDE, 1) == 0xF3 && ByteOf(0x05F35DDE, 2) == 0x5D && ByteOf(0x05F35DDE, 3) == 0xDE;
    assert S(0x05) == 0xE1 && S(0xF3) == 0xEC && S(0x5D) == 0x56 && S(0xDE) == 0xB4;
    assert Tau(0x05F35DDE) == PackWord(0xE1, 0xEC, 0x56, 0xB4) == 0xE1EC56B4;
  }

  /** Round 18 of the encryption loop: X[22] = X[18] ^ T(0x7823DB74). */
  lemma CipherRound18()
    ensures T(0x7823DB74) == 0x7A5FE213
  {
    assert ByteOf(0x7823DB74, 0) == 0x78 && ByteOf(0x7823DB74, 1) == 0x23 && ByteOf(0x7823DB74, 2) == 0xDB && ByteOf(0x7823DB74, 3) == 0x74;
    assert S(0x78) == 0x4C && S(0x23) == 0xF4 && S(0xDB) == 0x12 && S(0x74) == 0x9F;
    assert Tau(0x7823DB74) == PackWord(0x4C, 0xF4, 0x12, 0x9F) == 0x4CF4129F;
  }

  /** Round 19 of the encryption loop: X[23] = X[19] ^ T(0x85BD0481). */
  lemma CipherRound19()
    ensures T(0x85BD0481) == 0xE4D57022
  {
    assert ByteOf(0x85BD0481, 0) == 0x85 && ByteOf(0x85BD0481, 1) == 0xBD && ByteOf(0x85BD0481, 2) == 0x04 && ByteOf(0x85BD0481, 3) == 0x81;
    assert S(0x85) == 0xC7 && S(0xBD) == 0x6C && S(0x04) == 0xCC && S(0x81) == 0xBF;
    assert Tau(0x85BD0481) == PackWord(0xC7, 0x6C, 0xCC, 0xBF) == 0xC76CCCBF;
  }

  /** Round 20 of the encryption loop: X[24] = X[20] ^ T(0x42680EC9). */
  lemma CipherRound20()
    ensures T(0x42680EC9) == 0xC5C3409B
  {
    assert ByteOf(0x42680EC9, 0) == 0x42 && ByteOf(0x42680EC9, 1) == 0x68 && ByteOf(0x42680EC9, 2) == 0x0E && ByteOf(0x42680EC9, 3) == 0xC9;
    assert S(0x42) == 0xA7 && S(0x68) == 0x25 && S(0x0E) == 0x2C && S(0xC9) == 0xD9;
    assert Tau(0x42680EC9) == PackWord(0xA7, 0x25, 0x2C, 0xD9) == 0xA7252CD9;
  }

  /** Round 21 of the encryption loop: X[25] = X[21] ^ T(0xB5C5D18D). */
  lemma CipherRound21()
    ensures T(0xB5C5D18D) == 0x19D569A7
  {
    assert ByteOf(0xB5C5D18D, 0) == 0xB5 && ByteOf(0xB5C5D18D, 1) == 0xC5 && ByteOf(0xB5C5D18D, 2) == 0xD1 && ByteOf(0xB5C5D18D, 3) == 0x8D;
    assert S(0xB5) == 0xFD && S(0xC5) == 0xDD && S(0xD1) == 0xC1 && S(0x8D) == 0x61;
    assert Tau(0xB5C5D18D) == PackWord(0xFD, 0xDD, 0xC1, 0x61) == 0xFDDDC161;
  }

  /** Round 22 of the encryption loop: X[26] = X[22] ^ T(0x4B725B6C). */
  lemma CipherRound22()
    ensures T(0x4B725B6C) == 0x486E4032
  {
    assert ByteOf(0x4B725B6C, 0) == 0x4B && ByteOf(0x4B725B6C, 1) == 0x72 && ByteOf(0x4B725B6C, 2) == 0x5B && ByteOf(0x4B725B6C, 3) == 0x6C;
    assert S(0x4B) == 0x19 && S(0x72) == 0x46 && S(0x5B) == 0x4B && S(0x6C) == 0x01;
    assert Tau(0x4B725B6C) == PackWord(0x19, 0x46, 0x4B, 0x01) == 0x19464B01;
  }

  /** Round 23 of the encryption loop: X[27] = X[23] ^ T(0x1A00D498). */
  lemma CipherRound23()
    ensures T(0x1A00D498) == 0x3DBD1EA9
  {
    assert ByteOf(0x1A00D498, 0) == 0x1A && ByteOf(0x1A00D498, 1) == 0x00 && ByteOf(0x1A00D498, 2) == 0xD4 && ByteOf(0x1A00D498, 3) == 0x98;
    assert S(0x1A) == 0x13 && S(0x00) == 0xD6 && S(0xD4) == 0xA5 && S(0x98) == 0xAD;
    assert Tau(0x1A00D498) == PackWord(0x13, 0xD6, 0xA5, 0xAD) == 0x13D6A5AD;
  }

  /** Round 24 of the encryption loop: X[28] = X[24] ^ T(0x716B85E6). */
  lemma CipherRound24()
    ensures T(0x716B85E6) == 0x85153D83
  {
    assert ByteOf(0x716B85E6, 0) == 0x71 && ByteOf(0x716B85E6, 1) == 0x6B && ByteOf(0x716B85E6, 2) == 0x85 && ByteOf(0x716B85E6, 3) == 0xE6;
    assert S(0x71) == 0x00 && S(0x6B) == 0x3B && S(0x85) == 0xC7 && S(0xE6) == 0x77;
    assert Tau(0x716B85E6) == PackWord(0x00, 0x3B, 0xC7, 0x77) == 0x003BC777;
  }

  /** Round 25 of the encryption loop: X[29] = X[25] ^ T(0xC0E8A67F). */
  lemma CipherRound25()
    ensures T(0xC0E8A67F) == 0x9B2FCA8C
  {
    assert ByteOf(0xC0E8A67F, 0) == 0xC0 && ByteOf(0xC0E8A67F, 1) == 0xE8 && ByteOf(0xC0E8A67F, 2) == 0xA6 && ByteOf(0xC0E8A67F, 3) == 0x7F;
    assert S(0xC0) == 0x8D && S(0xE8) == 0x65 && S(0xA6) == 0xCA && S(0x7F) == 0x9E;
    assert Tau(0xC0E8A67F) == PackWord(0x8D, 0x65, 0xCA, 0x9E) == 0x8D65CA9E;
  }

  /** Round 26 of the encryption loop: X[30] = X[26] ^ T(0xA1C2A841). */
  lemma CipherRound26()
    ensures T(0xA1C2A841) == 0x94F9AABD
  {
    assert ByteOf(0xA1C2A841, 0) == 0xA1 && ByteOf(0xA1C2A841, 1) == 0xC2 && ByteOf(0xA1C2A841, 2) == 0xA8 && ByteOf(0xA1C2A841, 3) == 0x41;
    assert S(0xA1) == 0xF6 && S(0xC2) == 0xAF && S(0xA8) == 0xC0 && S(0x41) == 0x07;
    assert Tau(0xA1C2A841) == PackWord(0xF6, 0xAF, 0xC0, 0x07) == 0xF6AFC007;
  }

  /** Round 27 of the encryption loop: X[31] = X[27] ^ T(0xF85A7885). */
  lemma CipherRound27()
    ensures T(0xF85A7885) == 0x5465894F
  {
    assert ByteOf(0xF85A7885, 0) == 0xF8 && ByteOf(0xF85A7885, 1) == 0x5A && ByteOf(0xF85A7885, 2) == 0x78 && ByteOf(0xF85A7885, 3) == 0x85;
    assert S(0xF8) == 0x79 && S(0x5A) == 0x0F && S(0x78) == 0x4C && S(0x85) == 0xC7;
    assert Tau(0xF85A7885) == PackWord(0x79, 0x0F, 0x4C, 0xC7) == 0x790F4CC7;
  }

  /** Round 28 of the encryption loop: X[32] = X[28] ^ T(0xDFCE82C0). */
  lemma CipherRound28()
    ensures T(0xDFCE82C0) == 0xBC9C0D9A
  {
    assert ByteOf(0xDFCE82C0, 0) == 0xDF && ByteOf(0xDFCE82C0, 1) == 0xCE && ByteOf(0xDFCE82C0, 2) == 0x82 && ByteOf(0xDFCE82C0, 3) == 0xC0;
    assert S(0xDF) == 0xB0 && S(0xCE) == 0x5A && S(0x82) == 0x8A && S(0xC0) == 0x8D;
    assert Tau(0xDFCE82C0) == PackWord(0xB0, 0x5A, 0x8A, 0x8D) == 0xB05A8A8D;
  }

  /** Round 29 of the encryption loop: X[33] = X[29] ^ T(0xC3E0A931). */
  lemma CipherRound29()
    ensures T(0xC3E0A931) == 0xE957823A
  {
    assert ByteOf(0xC3E0A931, 0) == 0xC3 && ByteOf(0xC3E0A931, 1) == 0xE0 && ByteOf(0xC3E0A931, 2) == 0xA9 && ByteOf(0xC3E0A931, 3) == 0x31;
    assert S(0xC3) == 0x92 && S(0xE0) == 0x89 && S(0xA9) == 0x29 && S(0x31) == 0xB3;
    assert Tau(0xC3E0A931) == PackWord(0x92, 0x89, 0x29, 0xB3) == 0x928929B3;
  }

  /** Round 30 of the encryption loop: X[34] = X[30] ^ T(0xAF8156A0). */
  lemma CipherRound30()
    ensures T(0xAF8156A0) == 0x5B32C6F3
  {
    assert ByteOf(0xAF8156A0, 0) == 0xAF && ByteOf(0xAF8156A0, 1) == 0x81 && ByteOf(0xAF8156A0, 2) == 0x56 && ByteOf(0xAF8156A0, 3) == 0xA0;
    assert S(0xAF) == 0x6F && S(0x81) == 0xBF && S(0x56) == 0xDA && S(0xA0) == 0x1D;
    assert Tau(0xAF8156A0) == PackWord(0x6F, 0xBF, 0xDA, 0x1D) == 0x6FBFDA1D;
  }

  /** Round 31 of the encryption loop: X[35] = X[31] ^ T(0x96FF9D45). */
  lemma CipherRound31()
    ensures T(0x96FF9D45) == 0x138D5078
  {
    assert ByteOf(0x96FF9D45, 0) == 0x96 && ByteOf(0x96FF9D45, 1) == 0xFF && ByteOf(0x96FF9D45, 2) == 0x9D && ByteOf(0x96FF9D45, 3) == 0x45;
    assert S(0x96) == 0x1A && S(0xFF) == 0x48 && S(0x9D) == 0x8C && S(0x45) == 0x73;
    assert Tau(0x96FF9D45) == PackWord(0x1A, 0x48, 0x8C, 0x73) == 0x1A488C73;
  }

  /** Iterations 0 to 7 of the expansion loop. */
  lemma KeySteps0(tp: word -> word, ck: seq<word>, w: seq<word>)
    requires |ck| == 32 && |w| == 36
    requires forall i {:trigger NextWord(tp, ck, w, i)} :: 0 <= i < 32 ==> w[i + 4] == NextWord(tp, ck, w, i)
    requires w[0] == 0xA292FFA1 && w[1] == 0xDF01FEBF && w[2] == 0x99A12B0F && w[3] == 0xC42410CC
    requires ck[0] == 0x00070E15 && ck[1] == 0x1C232A31 && ck[2] == 0x383F464D && ck[3] == 0x545B6269 && ck[4] == 0x70777E85 && ck[5] == 0x8C939AA1 && ck[6] == 0xA8AFB6BD && ck[7] == 0xC4CBD2D9
    requires
      tp(0x8283CB69) == 0x53B37958 && tp(0xB087970B) == 0x9E67D5DE &&
      tp(0x4C5CFB19) == 0xC3CB9A95 && tp(0xBE767E6B) == 0xBF8D30BB &&
      tp(0x10D2C409) == 0xC752E60D && tp(0x9B236BB8) == 0x360C2700 &&
      tp(0x921FFA5F) == 0xECD13829 && tp(0x336937FF) == 0x5FDF1126
    ensures w[4] == 0xF12186F9 && w[5] == 0x41662B61 && w[6] == 0x5A6AB19A && w[7] == 0x7BA92077 && w[8] == 0x367360F4 && w[9] == 0x776A0C61 && w[10] == 0xB6BB89B3 && w[11] == 0x24763151
  {
    assert w[1] ^ w[2] ^ w[3] ^ ck[0] == 0x8283CB69;
    assert w[4] == NextWord(tp, ck, w, 0) == 0xF12186F9;
    assert w[2] ^ w[3] ^ w[4] ^ ck[1] == 0xB087970B;
    assert w[5] == NextWord(tp, ck, w, 1) == 0x41662B61;
    assert w[3] ^ w[4] ^ w[5] ^ ck[2] == 0x4C5CFB19;
    assert w[6] == NextWord(tp, ck, w, 2) == 0x5A6AB19A;
    assert w[4] ^ w[5] ^ w[6] ^ ck[3] == 0xBE767E6B;
    assert w[7] == NextWord(tp, ck, w, 3) == 0x7BA92077;
    assert w[5] ^ w[6] ^ w[7] ^ ck[4] == 0x10D2C409;
    assert w[8] == NextWord(tp, ck, w, 4) == 0x367360F4;
    assert w[6] ^ w[7] ^ w[8] ^ ck[5] == 0x9B236BB8;
    assert w[9] == NextWord(tp, ck, w, 5) == 0x776A0C61;
    assert w[7] ^ w[8] ^ w[9] ^ ck[6] == 0x921FFA5F;
    assert w[10] == NextWord(tp, ck, w, 6) == 0xB6BB89B3;
    assert w[8] ^ w[9] ^ w[10] ^ ck[7] == 0x336937FF;
    assert w[11] == NextWord(tp, ck, w, 7) == 0x24763151;
  }

  /** Iterations 8 to 15 of the expansion loop. */
  lemma KeySteps8(tp: word -> word, ck: seq<word>, w: seq<word>)
    requires |ck| == 32 && |w| == 36
    requires forall i {:trigger NextWord(tp, ck, w, i)} :: 0 <= i < 32 ==> w[i + 4] == NextWord(tp, ck, w, i)
    requires w[8] == 0x367360F4 && w[9] == 0x776A0C61 && w[10] == 0xB6BB89B3 && w[11] == 0x24763151
    requires ck[8] == 0xE0E7EEF5 && ck[9] == 0xFC030A11 && ck[10] == 0x181F262D && ck[11] == 0x343B4249 && ck[12] == 0x50575E65 && ck[13] == 0x6C737A81 && ck[14] == 0x888F969D && ck[15] == 0xA4ABB2B9
    requires
      tp(0x05405A76) == 0x93535088 && tp(0xCBEE828F) == 0xC03241DC &&
      tp(0x2E116ABD) == 0x75BCDA5E && tp(0xE5446C65) == 0x5A936A06 &&
      tp(0x5AED1B62) == 0xCCA850F0 && tp(0xB81912B7) == 0x8780D80A &&
      tp(0xAF3A38F1) == 0x87BD4742 && tp(0xB941532D) == 0x6EA1CEF6
    ensures w[12] == 0xA520307C && w[13] == 0xB7584DBD && w[14] == 0xC30753ED && w[15] == 0x7EE55B57 && w[16] == 0x6988608C && w[17] == 0x30D895B7 && w[18] == 0x44BA14AF && w[19] == 0x104495A1
  {
    assert w[9] ^ w[10] ^ w[11] ^ ck[8] == 0x05405A76;
    assert w[12] == NextWord(tp, ck, w, 8) == 0xA520307C;
    assert w[10] ^ w[11] ^ w[12] ^ ck[9] == 0xCBEE828F;
    assert w[13] == NextWord(tp, ck, w, 9) == 0xB7584DBD;
    assert w[11] ^ w[12] ^ w[13] ^ ck[10] == 0x2E116ABD;
    assert w[14] == NextWord(tp, ck, w, 10) == 0xC30753ED;
    assert w[12] ^ w[13] ^ w[14] ^ ck[11] == 0xE5446C65;
    assert w[15] == NextWord(tp, ck, w, 11) == 0x7EE55B57;
    assert w[13] ^ w[14] ^ w[15] ^ ck[12] == 0x5AED1B62;
    assert w[16] == NextWord(tp, ck, w, 12) == 0x6988608C;
    assert w[14] ^ w[15] ^ w[16] ^ ck[13] == 0xB81912B7;
    assert w[17] == NextWord(tp, ck, w, 13) == 0x30D895B7;
    assert w[15] ^ w[16] ^ w[17] ^ ck[14] == 0xAF3A38F1;
    assert w[18] == NextWord(tp, ck, w, 14) == 0x44BA14AF;
    assert w[16] ^ w[17] ^ w[18] ^ ck[15] == 0xB941532D;
    assert w[19] == NextWord(tp, ck, w, 15) == 0x104495A1;
  }

  /** Iterations 16 to 23 of the expansion loop. */
  lemma KeySteps16(tp: word -> word, ck: seq<word>, w: seq<word>)
    requires |ck| == 32 && |w| == 36
    requires forall i {:trigger NextWord(tp, ck, w, i)} :: 0 <= i < 32 ==> w[i + 4] == NextWord(tp, ck, w, i)
    requires w[16] == 0x6988608C && w[17] == 0x30D895B7 && w[18] == 0x44BA14AF && w[19] == 0x104495A1
    requires ck[16] == 0xC0C7CED5 && ck[17] == 0xDCE3EAF1 && ck[18] == 0xF8FF060D && ck[19] == 0x141B2229 && ck[20] == 0x30373E45 && ck[21] == 0x4C535A61 && ck[22] == 0x686F767D && ck[23] == 0x848B9299
    requires
      tp(0xA4E1DA6C) == 0xB8A8D4A4 && tp(0x593DDFD7) == 0x436DCA14 &&
      tp(0x4A2E7827) == 0x883D5DC9 && tp(0x7A0980C4) == 0x8260D198 &&
      tp(0x1D216CB9) == 0x39BED037 && tp(0xFA6E3321) == 0xEB7F5EF9 &&
      tp(0x8A1F5701) == 0x0B92D906 && tp(0x33CA67BC) == 0x0BC5B917
    ensures w[20] == 0xD120B428 && w[21] == 0x73B55FA3 && w[22] == 0xCC874966 && w[23] == 0x92244439 && w[24] == 0xE89E641F && w[25] == 0x98CA015A && w[26] == 0xC7159060 && w[27] == 0x99E1FD2E
  {
    assert w[17] ^ w[18] ^ w[19] ^ ck[16] == 0xA4E1DA6C;
    assert w[20] == NextWord(tp, ck, w, 16) == 0xD120B428;
    assert w[18] ^ w[19] ^ w[20] ^ ck[17] == 0x593DDFD7;
    assert w[21] == NextWord(tp, ck, w, 17) == 0x73B55FA3;
    assert w[19] ^ w[20] ^ w[21] ^ ck[18] == 0x4A2E7827;
    assert w[22] == NextWord(tp, ck, w, 18) == 0xCC874966;
    assert w[20] ^ w[21] ^ w[22] ^ ck[19] == 0x7A0980C4;
    assert w[23] == NextWord(tp, ck, w, 19) == 0x92244439;
    assert w[21] ^ w[22] ^ w[23] ^ ck[20] == 0x1D216CB9;
    assert w[24] == NextWord(tp, ck, w, 20) == 0xE89E641F;
    assert w[22] ^ w[23] ^ w[24] ^ ck[21] == 0xFA6E3321;
    assert w[25] == NextWord(tp, ck, w, 21) == 0x98CA015A;
    assert w[23] ^ w[24] ^ w[25] ^ ck[22] == 0x8A1F5701;
    assert w[26] == NextWord(tp, ck, w, 22) == 0xC7159060;
    assert w[24] ^ w[25] ^ w[26] ^ ck[23] == 0x33CA67BC;
    assert w[27] == NextWord(tp, ck, w, 23) == 0x99E1FD2E;
  }

  /** Iterations 24 to 31 of the expansion loop. */
  lemma KeySteps24(tp: word -> word, ck: seq<word>, w: seq<word>)
    requires |ck| == 32 && |w| == 36
    requires forall i {:trigger NextWord(tp, ck, w, i)} :: 0 <= i < 32 ==> w[i + 4] == NextWord(tp, ck, w, i)
    requires w[24] == 0xE89E641F && w[25] == 0x98CA015A && w[26] == 0xC7159060 && w[27] == 0x99E1FD2E
    requires ck[24] == 0xA0A7AEB5 && ck[25] == 0xBCC3CAD1 && ck[26] == 0xD8DFE6ED && ck[27] == 0xF4FB0209 && ck[28] == 0x10171E25 && ck[29] == 0x2C333A41 && ck[30] == 0x484F565D && ck[31] == 0x646B7279
    requires
      tp(0x6699C2A1) == 0x5F05BC13 && tp(0x55AC7F93) == 0x85EB14EA &&
      tp(0xEB84D67F) == 0xC9371A8B && tp(0x5063455E) == 0x6899F1AF &&
      tp(0xF26C8DFF) == 0xF516EE58 && tp(0x91E48A7F) == 0x7F082126 &&
      tp(0x9993581E) == 0x0FEDF80E && tp(0x4500025E) == 0x605CAC93
    ensures w[28] == 0xB79BD80C && w[29] == 0x1D2115B0 && w[30] == 0x0E228AEB && w[31] == 0xF1780C81 && w[32] == 0x428D3654 && w[33] == 0x62293496 && w[34] == 0x01CF72E5 && w[35] == 0x9124A012
  {
    assert w[25] ^ w[26] ^ w[27] ^ ck[24] == 0x6699C2A1;
    assert w[28] == NextWord(tp, ck, w, 24) == 0xB79BD80C;
    assert w[26] ^ w[27] ^ w[28] ^ ck[25] == 0x55AC7F93;
    assert w[29] == NextWord(tp, ck, w, 25) == 0x1D2115B0;
    assert w[27] ^ w[28] ^ w[29] ^ ck[26] == 0xEB84D67F;
    assert w[30] == NextWord(tp, ck, w, 26) == 0x0E228AEB;
    assert w[28] ^ w[29] ^ w[30] ^ ck[27] == 0x5063455E;
    assert w[31] == NextWord(tp, ck, w, 27) == 0xF1780C81;
    assert w[29] ^ w[30] ^ w[31] ^ ck[28] == 0xF26C8DFF;
    assert w[32] == NextWord(tp, ck, w, 28) == 0x428D3654;
    assert w[30] ^ w[31] ^ w[32] ^ ck[29] == 0x91E48A7F;
    assert w[33] == NextWord(tp, ck, w, 29) == 0x62293496;
    assert w[31] ^ w[32] ^ w[33] ^ ck[30] == 0x9993581E;
    assert w[34] == NextWord(tp, ck, w, 30) == 0x01CF72E5;
    assert w[32] ^ w[33] ^ w[34] ^ ck[31] == 0x4500025E;
    assert w[35] == NextWord(tp, ck, w, 31) == 0x9124A012;
  }

  /** A word sequence that starts with K[0..3] and follows the expansion
      recurrence, with constants and a mixer that agree with CK and T'
      wherever the loop consults them, is K. */
  lemma ExpansionOfKey(tp: word -> word, ck: seq<word>, w: seq<word>)
    requires |ck| == 32 && |w| == 36
    requires forall i {:trigger NextWord(tp, ck, w, i)} :: 0 <= i < 32 ==> w[i + 4] == NextWord(tp, ck, w, i)
    requires w[0] == 0xA292FFA1 && w[1] == 0xDF01FEBF && w[2] == 0x99A12B0F && w[3] == 0xC42410CC
    requires
      ck[0] == 0x00070E15 && ck[1] == 0x1C232A31 && ck[2] == 0x383F464D && ck[3] == 0x545B6269 &&
      ck[4] == 0x70777E85 && ck[5] == 0x8C939AA1 && ck[6] == 0xA8AFB6BD && ck[7] == 0xC4CBD2D9 &&
      ck[8] == 0xE0E7EEF5 && ck[9] == 0xFC030A11 && ck[10] == 0x181F262D && ck[11] == 0x343B4249 &&
      ck[12] == 0x50575E65 && ck[13] == 0x6C737A81 && ck[14] == 0x888F969D && ck[15] == 0xA4ABB2B9 &&
      ck[16] == 0xC0C7CED5 && ck[17] == 0xDCE3EAF1 && ck[18] == 0xF8FF060D && ck[19] == 0x141B2229 &&
      ck[20] == 0x30373E45 && ck[21] == 0x4C535A61 && ck[22] == 0x686F767D && ck[23] == 0x848B9299 &&
      ck[24] == 0xA0A7AEB5 && ck[25] == 0xBCC3CAD1 && ck[26] == 0xD8DFE6ED && ck[27] == 0xF4FB0209 &&
      ck[28] == 0x10171E25 && ck[29] == 0x2C333A41 && ck[30] == 0x484F565D && ck[31] == 0x646B7279
    requires
      tp(0x8283CB69) == 0x53B37958 && tp(0xB087970B) == 0x9E67D5DE &&
      tp(0x4C5CFB19) == 0xC3CB9A95 && tp(0xBE767E6B) == 0xBF8D30BB &&
      tp(0x10D2C409) == 0xC752E60D && tp(0x9B236BB8) == 0x360C2700 &&
      tp(0x921FFA5F) == 0xECD13829 && tp(0x336937FF) == 0x5FDF1126 &&
      tp(0x05405A76) == 0x93535088 && tp(0xCBEE828F) == 0xC03241DC &&
      tp(0x2E116ABD) == 0x75BCDA5E && tp(0xE5446C65) == 0x5A936A06 &&
      tp(0x5AED1B62) == 0xCCA850F0 && tp(0xB81912B7) == 0x8780D80A &&
      tp(0xAF3A38F1) == 0x87BD4742 && tp(0xB941532D) == 0x6EA1CEF6 &&
      tp(0xA4E1DA6C) == 0xB8A8D4A4 && tp(0x593DDFD7) == 0x436DCA14 &&
      tp(0x4A2E7827) == 0x883D5DC9 && tp(0x7A0980C4) == 0x8260D198 &&
      tp(0x1D216CB9) == 0x39BED037 && tp(0xFA6E3321) == 0xEB7F5EF9 &&
      tp(0x8A1F5701) == 0x0B92D906 && tp(0x33CA67BC) == 0x0BC5B917 &&
      tp(0x6699C2A1) == 0x5F05BC13 && tp(0x55AC7F93) == 0x85EB14EA &&
      tp(0xEB84D67F) == 0xC9371A8B && tp(0x5063455E) == 0x6899F1AF &&
      tp(0xF26C8DFF) == 0xF516EE58 && tp(0x91E48A7F) == 0x7F082126 &&
      tp(0x9993581E) == 0x0FEDF80E && tp(0x4500025E) == 0x605CAC93
    ensures
      w[4] == 0xF12186F9 && w[5] == 0x41662B61 && w[6] == 0x5A6AB19A && w[7] == 0x7BA92077 &&
      w[8] == 0x367360F4 && w[9] == 0x776A0C61 && w[10] == 0xB6BB89B3 && w[11] == 0x24763151 &&
      w[12] == 0xA520307C && w[13] == 0xB7584DBD && w[14] == 0xC30753ED && w[15] == 0x7EE55B57 &&
      w[16] == 0x6988608C && w[17] == 0x30D895B7 && w[18] == 0x44BA14AF && w[19] == 0x104495A1 &&
      w[20] == 0xD120B428 && w[21] == 0x73B55FA3 && w[22] == 0xCC874966 && w[23] == 0x92244439 &&
      w[24] == 0xE89E641F && w[25] == 0x98CA015A && w[26] == 0xC7159060 && w[27] == 0x99E1FD2E &&
      w[28] == 0xB79BD80C && w[29] == 0x1D2115B0 && w[30] == 0x0E228AEB && w[31] == 0xF1780C81 &&
      w[32] == 0x428D3654 && w[33] == 0x62293496 && w[34] == 0x01CF72E5 && w[35] == 0x9124A012
  {
    KeySteps0(tp, ck, w);
    KeySteps8(tp, ck, w);
    KeySteps16(tp, ck, w);
    KeySteps24(tp, ck, w);
  }

  /** The expansion loop from K[0..3], with constants and a mixer that
      agree with CK and T' wherever the loop consults them, runs through K. */
  lemma ExpansionFromKey(tp: word -> word, ck: seq<word>, k0: seq<word>)
    requires |ck| == 32 && |k0| == 4
    requires k0[0] == 0xA292FFA1 && k0[1] == 0xDF01FEBF && k0[2] == 0x99A12B0F && k0[3] == 0xC42410CC
    requires
      ck[0] == 0x00070E15 && ck[1] == 0x1C232A31 && ck[2] == 0x383F464D && ck[3] == 0x545B6269 &&
      ck[4] == 0x70777E85 && ck[5] == 0x8C939AA1 && ck[6] == 0xA8AFB6BD && ck[7] == 0xC4CBD2D9 &&
      ck[8] == 0xE0E7EEF5 && ck[9] == 0xFC030A11 && ck[10] == 0x181F262D && ck[11] == 0x343B4249 &&
      ck[12] == 0x50575E65 && ck[13] == 0x6C737A81 && ck[14] == 0x888F969D && ck[15] == 0xA4ABB2B9 &&
      ck[16] == 0xC0C7CED5 && ck[17] == 0xDCE3EAF1 && ck[18] == 0xF8FF060D && ck[19] == 0x141B2229 &&
      ck[20] == 0x30373E45 && ck[21] == 0x4C535A61 && ck[22] == 0x686F767D && ck[23] == 0x848B9299 &&
      ck[24] == 0xA0A7AEB5 && ck[25] == 0xBCC3CAD1 && ck[26] == 0xD8DFE6ED && ck[27] == 0xF4FB0209 &&
      ck[28] == 0x10171E25 && ck[29] == 0x2C333A41 && ck[30] == 0x484F565D && ck[31] == 0x646B7279
    requires
      tp(0x8283CB69) == 0x53B37958 && tp(0xB087970B) == 0x9E67D5DE &&
      tp(0x4C5CFB19) == 0xC3CB9A95 && tp(0xBE767E6B) == 0xBF8D30BB &&
      tp(0x10D2C409) == 0xC752E60D && tp(0x9B236BB8) == 0x360C2700 &&
      tp(0x921FFA5F) == 0xECD13829 && tp(0x336937FF) == 0x5FDF1126 &&
      tp(0x05405A76) == 0x93535088 && tp(0xCBEE828F) == 0xC03241DC &&
      tp(0x2E116ABD) == 0x75BCDA5E && tp(0xE5446C65) == 0x5A936A06 &&
      tp(0x5AED1B62) == 0xCCA850F0 && tp(0xB81912B7) == 0x8780D80A &&
      tp(0xAF3A38F1) == 0x87BD4742 && tp(0xB941532D) == 0x6EA1CEF6 &&
      tp(0xA4E1DA6C) == 0xB8A8D4A4 && tp(0x593DDFD7) == 0x436DCA14 &&
      tp(0x4A2E7827) == 0x883D5DC9 && tp(0x7A0980C4) == 0x8260D198 &&
      tp(0x1D216CB9) == 0x39BED037 && tp(0xFA6E3321) == 0xEB7F5EF9 &&
      tp(0x8A1F5701) == 0x0B92D906 && tp(0x33CA67BC) == 0x0BC5B917 &&
      tp(0x6699C2A1) == 0x5F05BC13 && tp(0x55AC7F93) == 0x85EB14EA &&
      tp(0xEB84D67F) == 0xC9371A8B && tp(0x5063455E) == 0x6899F1AF &&
      tp(0xF26C8DFF) == 0xF516EE58 && tp(0x91E48A7F) == 0x7F082126 &&
      tp(0x9993581E) == 0x0FEDF80E && tp(0x4500025E) == 0x605CAC93
    ensures
      Expand(tp, ck, k0, 32)[4] == 0xF12186F9 && Expand(tp, ck, k0, 32)[5] == 0x41662B61 &&
      Expand(tp, ck, k0, 32)[6] == 0x5A6AB19A && Expand(tp, ck, k0, 32)[7] == 0x7BA92077 &&
      Expand(tp, ck, k0, 32)[8] == 0x367360F4 && Expand(tp, ck, k0, 32)[9] == 0x776A0C61 &&
      Expand(tp, ck, k0, 32)[10] == 0xB6BB89B3 && Expand(tp, ck, k0, 32)[11] == 0x24763151 &&
      Expand(tp, ck, k0, 32)[12] == 0xA520307C && Expand(tp, ck, k0, 32)[13] == 0xB7584DBD &&
      Expand(tp, ck, k0, 32)[14] == 0xC30753ED && Expand(tp, ck, k0, 32)[15] == 0x7EE55B57 &&
      Expand(tp, ck, k0, 32)[16] == 0x6988608C && Expand(tp, ck, k0, 32)[17] == 0x30D895B7 &&
      Expand(tp, ck, k0, 32)[18] == 0x44BA14AF && Expand(tp, ck, k0, 32)[19] == 0x104495A1 &&
      Expand(tp, ck, k0, 32)[20] == 0xD120B428 && Expand(tp, ck, k0, 32)[21] == 0x73B55FA3 &&
      Expand(tp, ck, k0, 32)[22] == 0xCC874966 && Expand(tp, ck, k0, 32)[23] == 0x92244439 &&
      Expand(tp, ck, k0, 32)[24] == 0xE89E641F && Expand(tp, ck, k0, 32)[25] == 0x98CA015A &&
      Expand(tp, ck, k0, 32)[26] == 0xC7159060 && Expand(tp, ck, k0, 32)[27] == 0x99E1FD2E &&
      Expand(tp, ck, k0, 32)[28] == 0xB79BD80C && Expand(tp, ck, k0, 32)[29] == 0x1D2115B0 &&
      Expand(tp, ck, k0, 32)[30] == 0x0E228AEB && Expand(tp, ck, k0, 32)[31] == 0xF1780C81 &&
      Expand(tp, ck, k0, 32)[32] == 0x428D3654 && Expand(tp, ck, k0, 32)[33] == 0x62293496 &&
      Expand(tp, ck, k0, 32)[34] == 0x01CF72E5 && Expand(tp, ck, k0, 32)[35] == 0x9124A012
  {
    ExpandRecurrence(tp, ck, k0, 32);
    var w := Expand(tp, ck, k0, 32);
    assert w[0] == k0[0] && w[1] == k0[1] && w[2] == k0[2] && w[3] == k0[3];
    ExpansionOfKey(tp, ck, w);
  }

  /** Rounds 0 to 7 of the encryption loop. */
  lemma CipherSteps0(f: RoundFunction, s: State, rk: RoundKeys)
    requires EncRounds(f, s, rk, 0) == State(0x01234567, 0x89ABCDEF, 0xFEDCBA98, 0x76543210)
    requires rk[0] == 0xF12186F9 && rk[1] == 0x41662B61 && rk[2] == 0x5A6AB19A && rk[3] == 0x7BA92077 && rk[4] == 0x367360F4 && rk[5] == 0x776A0C61 && rk[6] == 0xB6BB89B3 && rk[7] == 0x24763151
    requires
      f(0x01234567, 0x89ABCDEF, 0xFEDCBA98, 0x76543210, 0xF12186F9) == 0x27FAD345 &&
      f(0x89ABCDEF, 0xFEDCBA98, 0x76543210, 0x27FAD345, 0x41662B61) == 0xA18B4CB2 &&
      f(0xFEDCBA98, 0x76543210, 0x27FAD345, 0xA18B4CB2, 0x5A6AB19A) == 0x11C1E22A &&
      f(0x76543210, 0x27FAD345, 0xA18B4CB2, 0x11C1E22A, 0x7BA92077) == 0xCC13E2EE &&
      f(0x27FAD345, 0xA18B4CB2, 0x11C1E22A, 0xCC13E2EE, 0x367360F4) == 0xF87C5BD5 &&
      f(0xA18B4CB2, 0x11C1E22A, 0xCC13E2EE, 0xF87C5BD5, 0x776A0C61) == 0x33220757 &&
      f(0x11C1E22A, 0xCC13E2EE, 0xF87C5BD5, 0x33220757, 0xB6BB89B3) == 0x77F4C297 &&
      f(0xCC13E2EE, 0xF87C5BD5, 0x33220757, 0x77F4C297, 0x24763151) == 0x7A96F2EB
    ensures EncRounds(f, s, rk, 8) == State(0xF87C5BD5, 0x33220757, 0x77F4C297, 0x7A96F2EB)
  {
    assert EncRounds(f, s, rk, 1) == State(0x89ABCDEF, 0xFEDCBA98, 0x76543210, 0x27FAD345);
    assert EncRounds(f, s, rk, 2) == State(0xFEDCBA98, 0x76543210, 0x27FAD345, 0xA18B4CB2);
    assert EncRounds(f, s, rk, 3) == State(0x76543210, 0x27FAD345, 0xA18B4CB2, 0x11C1E22A);
    assert EncRounds(f, s, rk, 4) == State(0x27FAD345, 0xA18B4CB2, 0x11C1E22A, 0xCC13E2EE);
    assert EncRounds(f, s, rk, 5) == State(0xA18B4CB2, 0x11C1E22A, 0xCC13E2EE, 0xF87C5BD5);
    assert EncRounds(f, s, rk, 6) == State(0x11C1E22A, 0xCC13E2EE, 0xF87C5BD5, 0x33220757);
    assert EncRounds(f, s, rk, 7) == State(0xCC13E2EE, 0xF87C5BD5, 0x33220757, 0x77F4C297);
    assert EncRounds(f, s, rk, 8) == State(0xF87C5BD5, 0x33220757, 0x77F4C297, 0x7A96F2EB);
  }

  /** Rounds 8 to 15 of the encryption loop. */
  lemma CipherSteps8(f: RoundFunction, s: State, rk: RoundKeys)
    requires EncRounds(f, s, rk, 8) == State(0xF87C5BD5, 0x33220757, 0x77F4C297, 0x7A96F2EB)
    requires rk[8] == 0xA520307C && rk[9] == 0xB7584DBD && rk[10] == 0xC30753ED && rk[11] == 0x7EE55B57 && rk[12] == 0x6988608C && rk[13] == 0x30D895B7 && rk[14] == 0x44BA14AF && rk[15] == 0x104495A1
    requires
      f(0xF87C5BD5, 0x33220757, 0x77F4C297, 0x7A96F2EB, 0xA520307C) == 0x27DAC07F &&
      f(0x33220757, 0x77F4C297, 0x7A96F2EB, 0x27DAC07F, 0xB7584DBD) == 0x42DD0F19 &&
      f(0x77F4C297, 0x7A96F2EB, 0x27DAC07F, 0x42DD0F19, 0xC30753ED) == 0xB8A5DA02 &&
      f(0x7A96F2EB, 0x27DAC07F, 0x42DD0F19, 0xB8A5DA02, 0x7EE55B57) == 0x907127FA &&
      f(0x27DAC07F, 0x42DD0F19, 0xB8A5DA02, 0x907127FA, 0x6988608C) == 0x8B952B83 &&
      f(0x42DD0F19, 0xB8A5DA02, 0x907127FA, 0x8B952B83, 0x30D895B7) == 0xD42B7C59 &&
      f(0xB8A5DA02, 0x907127FA, 0x8B952B83, 0xD42B7C59, 0x44BA14AF) == 0x2FFC5831 &&
      f(0x907127FA, 0x8B952B83, 0xD42B7C59, 0x2FFC5831, 0x104495A1) == 0xF69E6888
    ensures EncRounds(f, s, rk, 16) == State(0x8B952B83, 0xD42B7C59, 0x2FFC5831, 0xF69E6888)
  {
    assert EncRounds(f, s, rk, 9) == State(0x33220757, 0x77F4C297, 0x7A96F2EB, 0x27DAC07F);
    assert EncRounds(f, s, rk, 10) == State(0x77F4C297, 0x7A96F2EB, 0x27DAC07F, 0x42DD0F19);
    assert EncRounds(f, s, rk, 11) == State(0x7A96F2EB, 0x27DAC07F, 0x42DD0F19, 0xB8A5DA02);
    assert EncRounds(f, s, rk, 12) == State(0x27DAC07F, 0x42DD0F19, 0xB8A5DA02, 0x907127FA);
    assert EncRounds(f, s, rk, 13) == State(0x42DD0F19, 0xB8A5DA02, 0x907127FA, 0x8B952B83);
    assert EncRounds(f, s, rk, 14) == State(0xB8A5DA02, 0x907127FA, 0x8B952B83, 0xD42B7C59);
    assert EncRounds(f, s, rk, 15) == State(0x907127FA, 0x8B952B83, 0xD42B7C59, 0x2FFC5831);
    assert EncRounds(f, s, rk, 16) == State(0x8B952B83, 0xD42B7C59, 0x2FFC5831, 0xF69E6888);
  }

  /** Rounds 16 to 23 of the encryption loop. */
  lemma CipherSteps16(f: RoundFunction, s: State, rk: RoundKeys)
    requires EncRounds(f, s, rk, 16) == State(0x8B952B83, 0xD42B7C59, 0x2FFC5831, 0xF69E6888)
    requires rk[16] == 0xD120B428 && rk[17] == 0x73B55FA3 && rk[18] == 0xCC874966 && rk[19] == 0x92244439 && rk[20] == 0xE89E641F && rk[21] == 0x98CA015A && rk[22] == 0xC7159060 && rk[23] == 0x99E1FD2E
    requires
      f(0x8B952B83, 0xD42B7C59, 0x2FFC5831, 0xF69E6888, 0xD120B428) == 0xAF2432C4 &&
      f(0xD42B7C59, 0x2FFC5831, 0xF69E6888, 0xAF2432C4, 0x73B55FA3) == 0xED1EC85E &&
      f(0x2FFC5831, 0xF69E6888, 0xAF2432C4, 0xED1EC85E, 0xCC874966) == 0x55A3BA22 &&
      f(0xF69E6888, 0xAF2432C4, 0xED1EC85E, 0x55A3BA22, 0x92244439) == 0x124B18AA &&
      f(0xAF2432C4, 0xED1EC85E, 0x55A3BA22, 0x124B18AA, 0xE89E641F) == 0x6AE7725F &&
      f(0xED1EC85E, 0x55A3BA22, 0x124B18AA, 0x6AE7725F, 0x98CA015A) == 0xF4CBA1F9 &&
      f(0x55A3BA22, 0x124B18AA, 0x6AE7725F, 0xF4CBA1F9, 0xC7159060) == 0x1DCDFA10 &&
      f(0x124B18AA, 0x6AE7725F, 0xF4CBA1F9, 0x1DCDFA10, 0x99E1FD2E) == 0x2FF60603
    ensures EncRounds(f, s, rk, 24) == State(0x6AE7725F, 0xF4CBA1F9, 0x1DCDFA10, 0x2FF60603)
  {
    assert EncRounds(f, s, rk, 17) == State(0xD42B7C59, 0x2FFC5831, 0xF69E6888, 0xAF2432C4);
    assert EncRounds(f, s, rk, 18) == State(0x2FFC5831, 0xF69E6888, 0xAF2432C4, 0xED1EC85E);
    assert EncRounds(f, s, rk, 19) == State(0xF69E6888, 0xAF2432C4, 0xED1EC85E, 0x55A3BA22);
    assert EncRounds(f, s, rk, 20) == State(0xAF2432C4, 0xED1EC85E, 0x55A3BA22, 0x124B18AA);
    assert EncRounds(f, s, rk, 21) == State(0xED1EC85E, 0x55A3BA22, 0x124B18AA, 0x6AE7725F);
    assert EncRounds(f, s, rk, 22) == State(0x55A3BA22, 0x124B18AA, 0x6AE7725F, 0xF4CBA1F9);
    assert EncRounds(f, s, rk, 23) == State(0x124B18AA, 0x6AE7725F, 0xF4CBA1F9, 0x1DCDFA10);
    assert EncRounds(f, s, rk, 24) == State(0x6AE7725F, 0xF4CBA1F9, 0x1DCDFA10, 0x2FF60603);
  }

  /** Rounds 24 to 31 of the encryption loop. */
  lemma CipherSteps24(f: RoundFunction, s: State, rk: RoundKeys)
    requires EncRounds(f, s, rk, 24) == State(0x6AE7725F, 0xF4CBA1F9, 0x1DCDFA10, 0x2FF60603)
    requires rk[24] == 0xB79BD80C && rk[25] == 0x1D2115B0 && rk[26] == 0x0E228AEB && rk[27] == 0xF1780C81 && rk[28] == 0x428D3654 && rk[29] == 0x62293496 && rk[30] == 0x01CF72E5 && rk[31] == 0x9124A012
    requires
      f(0x6AE7725F, 0xF4CBA1F9, 0x1DCDFA10, 0x2FF60603, 0xB79BD80C) == 0xEFF24FDC &&
      f(0xF4CBA1F9, 0x1DCDFA10, 0x2FF60603, 0xEFF24FDC, 0x1D2115B0) == 0x6FE46B75 &&
      f(0x1DCDFA10, 0x2FF60603, 0xEFF24FDC, 0x6FE46B75, 0x0E228AEB) == 0x893450AD &&
      f(0x2FF60603, 0xEFF24FDC, 0x6FE46B75, 0x893450AD, 0xF1780C81) == 0x7B938F4C &&
      f(0xEFF24FDC, 0x6FE46B75, 0x893450AD, 0x7B938F4C, 0x428D3654) == 0x536E4246 &&
      f(0x6FE46B75, 0x893450AD, 0x7B938F4C, 0x536E4246, 0x62293496) == 0x86B3E94F &&
      f(0x893450AD, 0x7B938F4C, 0x536E4246, 0x86B3E94F, 0x01CF72E5) == 0xD206965E &&
      f(0x7B938F4C, 0x536E4246, 0x86B3E94F, 0xD206965E, 0x9124A012) == 0x681EDF34
    ensures EncRounds(f, s, rk, 32) == State(0x536E4246, 0x86B3E94F, 0xD206965E, 0x681EDF34)
  {
    assert EncRounds(f, s, rk, 25) == State(0xF4CBA1F9, 0x1DCDFA10, 0x2FF60603, 0xEFF24FDC);
    assert EncRounds(f, s, rk, 26) == State(0x1DCDFA10, 0x2FF60603, 0xEFF24FDC, 0x6FE46B75);
    assert EncRounds(f, s, rk, 27) == State(0x2FF60603, 0xEFF24FDC, 0x6FE46B75, 0x893450AD);
    assert EncRounds(f, s, rk, 28) == State(0xEFF24FDC, 0x6FE46B75, 0x893450AD, 0x7B938F4C);
    assert EncRounds(f, s, rk, 29) == State(0x6FE46B75, 0x893450AD, 0x7B938F4C, 0x536E4246);
    assert EncRounds(f, s, rk, 30) == State(0x893450AD, 0x7B938F4C, 0x536E4246, 0x86B3E94F);
    assert EncRounds(f, s, rk, 31) == State(0x7B938F4C, 0x536E4246, 0x86B3E94F, 0xD206965E);
    assert EncRounds(f, s, rk, 32) == State(0x536E4246, 0x86B3E94F, 0xD206965E, 0x681EDF34);
  }

  /** The round loop from X[0..3], with round keys and a round function
      that agree with those of KEY and round_f on the 32 rounds, ends in
      X[32..35]. */
  lemma RoundsOfKey(f: RoundFunction, s: State, rk: RoundKeys)
    requires s == State(0x01234567, 0x89ABCDEF, 0xFEDCBA98, 0x76543210)
    requires
      rk[0] == 0xF12186F9 && rk[1] == 0x41662B61 && rk[2] == 0x5A6AB19A && rk[3] == 0x7BA92077 &&
      rk[4] == 0x367360F4 && rk[5] == 0x776A0C61 && rk[6] == 0xB6BB89B3 && rk[7] == 0x24763151 &&
      rk[8] == 0xA520307C && rk[9] == 0xB7584DBD && rk[10] == 0xC30753ED && rk[11] == 0x7EE55B57 &&
      rk[12] == 0x6988608C && rk[13] == 0x30D895B7 && rk[14] == 0x44BA14AF && rk[15] == 0x104495A1 &&
      rk[16] == 0xD120B428 && rk[17] == 0x73B55FA3 && rk[18] == 0xCC874966 && rk[19] == 0x92244439 &&
      rk[20] == 0xE89E641F && rk[21] == 0x98CA015A && rk[22] == 0xC7159060 && rk[23] == 0x99E1FD2E &&
      rk[24] == 0xB79BD80C && rk[25] == 0x1D2115B0 && rk[26] == 0x0E228AEB && rk[27] == 0xF1780C81 &&
      rk[28] == 0x428D3654 && rk[29] == 0x62293496 && rk[30] == 0x01CF72E5 && rk[31] == 0x9124A012
    requires
      f(0x01234567, 0x89ABCDEF, 0xFEDCBA98, 0x76543210, 0xF12186F9) == 0x27FAD345 &&
      f(0x89ABCDEF, 0xFEDCBA98, 0x76543210, 0x27FAD345, 0x41662B61) == 0xA18B4CB2 &&
      f(0xFEDCBA98, 0x76543210, 0x27FAD345, 0xA18B4CB2, 0x5A6AB19A) == 0x11C1E22A &&
      f(0x76543210, 0x27FAD345, 0xA18B4CB2, 0x11C1E22A, 0x7BA92077) == 0xCC13E2EE &&
      f(0x27FAD345, 0xA18B4CB2, 0x11C1E22A, 0xCC13E2EE, 0x367360F4) == 0xF87C5BD5 &&
      f(0xA18B4CB2, 0x11C1E22A, 0xCC13E2EE, 0xF87C5BD5, 0x776A0C61) == 0x33220757 &&
      f(0x11C1E22A, 0xCC13E2EE, 0xF87C5BD5, 0x33220757, 0xB6BB89B3) == 0x77F4C297 &&
      f(0xCC13E2EE, 0xF87C5BD5, 0x33220757, 0x77F4C297, 0x24763151) == 0x7A96F2EB &&
      f(0xF87C5BD5, 0x33220757, 0x77F4C297, 0x7A96F2EB, 0xA520307C) == 0x27DAC07F &&
      f(0x33220757, 0x77F4C297, 0x7A96F2EB, 0x27DAC07F, 0xB7584DBD) == 0x42DD0F19 &&
      f(0x77F4C297, 0x7A96F2EB, 0x27DAC07F, 0x42DD0F19, 0xC30753ED) == 0xB8A5DA02 &&
      f(0x7A96F2EB, 0x27DAC07F, 0x42DD0F19, 0xB8A5DA02, 0x7EE55B57) == 0x907127FA &&
      f(0x27DAC07F, 0x42DD0F19, 0xB8A5DA02, 0x907127FA, 0x6988608C) == 0x8B952B83 &&
      f(0x42DD0F19, 0xB8A5DA02, 0x907127FA, 0x8B952B83, 0x30D895B7) == 0xD42B7C59 &&
      f(0xB8A5DA02, 0x907127FA, 0x8B952B83, 0xD42B7C59, 0x44BA14AF) == 0x2FFC5831 &&
      f(0x907127FA, 0x8B952B83, 0xD42B7C59, 0x2FFC5831, 0x104495A1) == 0xF69E6888 &&
      f(0x8B952B83, 0xD42B7C59, 0x2FFC5831, 0xF69E6888, 0xD120B428) == 0xAF2432C4 &&
      f(0xD42B7C59, 0x2FFC5831, 0xF69E6888, 0xAF2432C4, 0x73B55FA3) == 0xED1EC85E &&
      f(0x2FFC5831, 0xF69E6888, 0xAF2432C4, 0xED1EC85E, 0xCC874966) == 0x55A3BA22 &&
      f(0xF69E6888, 0xAF2432C4, 0xED1EC85E, 0x55A3BA22, 0x92244439) == 0x124B18AA &&
      f(0xAF2432C4, 0xED1EC85E, 0x55A3BA22, 0x124B18AA, 0xE89E641F) == 0x6AE7725F &&
      f(0xED1EC85E, 0x55A3BA22, 0x124B18AA, 0x6AE7725F, 0x98CA015A) == 0xF4CBA1F9 &&
      f(0x55A3BA22, 0x124B18AA, 0x6AE7725F, 0xF4CBA1F9, 0xC7159060) == 0x1DCDFA10 &&
      f(0x124B18AA, 0x6AE7725F, 0xF4CBA1F9, 0x1DCDFA10, 0x99E1FD2E) == 0x2FF60603 &&
      f(0x6AE7725F, 0xF4CBA1F9, 0x1DCDFA10, 0x2FF60603, 0xB79BD80C) == 0xEFF24FDC &&
      f(0xF4CBA1F9, 0x1DCDFA10, 0x2FF60603, 0xEFF24FDC, 0x1D2115B0) == 0x6FE46B75 &&
      f(0x1DCDFA10, 0x2FF60603, 0xEFF24FDC, 0x6FE46B75, 0x0E228AEB) == 0x893450AD &&
      f(0x2FF60603, 0xEFF24FDC, 0x6FE46B75, 0x893450AD, 0xF1780C81) == 0x7B938F4C &&
      f(0xEFF24FDC, 0x6FE46B75, 0x893450AD, 0x7B938F4C, 0x428D3654) == 0x536E4246 &&
      f(0x6FE46B75, 0x893450AD, 0x7B938F4C, 0x536E4246, 0x62293496) == 0x86B3E94F &&
      f(0x893450AD, 0x7B938F4C, 0x536E4246, 0x86B3E94F, 0x01CF72E5) == 0xD206965E &&
      f(0x7B938F4C, 0x536E4246, 0x86B3E94F, 0xD206965E, 0x9124A012) == 0x681EDF34
    ensures EncRounds(f, s, rk, 32) == State(0x536E4246, 0x86B3E94F, 0xD206965E, 0x681EDF34)
  {
    CipherSteps0(f, s, rk);
    CipherSteps8(f, s, rk);
    CipherSteps16(f, s, rk);
    CipherSteps24(f, s, rk);
  }

  /** The round keys of KEY: sm4_key_schedule(KEY) is K[4..35]. */
  lemma KeyScheduleOfKey()
    ensures var rk := KeySchedule(KEY);
      rk[0] == 0xF12186F9 && rk[1] == 0x41662B61 && rk[2] == 0x5A6AB19A && rk[3] == 0x7BA92077 &&
      rk[4] == 0x367360F4 && rk[5] == 0x776A0C61 && rk[6] == 0xB6BB89B3 && rk[7] == 0x24763151 &&
      rk[8] == 0xA520307C && rk[9] == 0xB7584DBD && rk[10] == 0xC30753ED && rk[11] == 0x7EE55B57 &&
      rk[12] == 0x6988608C && rk[13] == 0x30D895B7 && rk[14] == 0x44BA14AF && rk[15] == 0x104495A1 &&
      rk[16] == 0xD120B428 && rk[17] == 0x73B55FA3 && rk[18] == 0xCC874966 && rk[19] == 0x92244439 &&
      rk[20] == 0xE89E641F && rk[21] == 0x98CA015A && rk[22] == 0xC7159060 && rk[23] == 0x99E1FD2E &&
      rk[24] == 0xB79BD80C && rk[25] == 0x1D2115B0 && rk[26] == 0x0E228AEB && rk[27] == 0xF1780C81 &&
      rk[28] == 0x428D3654 && rk[29] == 0x62293496 && rk[30] == 0x01CF72E5 && rk[31] == 0x9124A012
  {
    InitialWordsOfKey();
    Ck0();
    Ck4();
    Ck8();
    Ck12();
    Ck16();
    Ck20();
    Ck24();
    Ck28();
    KeyRound0();
    KeyRound1();
    KeyRound2();
    KeyRound3();
    KeyRound4();
    KeyRound5();
    KeyRound6();
    KeyRound7();
    KeyRound8();
    KeyRound9();
    KeyRound10();
    KeyRound11();
    KeyRound12();
    KeyRound13();
    KeyRound14();
    KeyRound15();
    KeyRound16();
    KeyRound17();
    KeyRound18();
    KeyRound19();
    KeyRound20();
    KeyRound21();
    KeyRound22();
    KeyRound23();
    KeyRound24();
    KeyRound25();
    KeyRound26();
    KeyRound27();
    KeyRound28();
    KeyRound29();
    KeyRound30();
    KeyRound31();
    ExpansionFromKey(Tp, CK, InitialWords(KEY));
  }

  /** The block transform of KEY, with round keys that agree with those
      of KEY and a round function of the shape of round_f whose mixer
      agrees with T on the 32 rounds. */
  lemma BlockOfKey(t: word -> word, f: RoundFunction, rk: RoundKeys)
    requires forall x0, x1, x2, x3, k :: f(x0, x1, x2, x3, k) == x0 ^ t(x1 ^ x2 ^ x3 ^ k)
    requires
      rk[0] == 0xF12186F9 && rk[1] == 0x41662B61 && rk[2] == 0x5A6AB19A && rk[3] == 0x7BA92077 &&
      rk[4] == 0x367360F4 && rk[5] == 0x776A0C61 && rk[6] == 0xB6BB89B3 && rk[7] == 0x24763151 &&
      rk[8] == 0xA520307C && rk[9] == 0xB7584DBD && rk[10] == 0xC30753ED && rk[11] == 0x7EE55B57 &&
      rk[12] == 0x6988608C && rk[13] == 0x30D895B7 && rk[14] == 0x44BA14AF && rk[15] == 0x104495A1 &&
      rk[16] == 0xD120B428 && rk[17] == 0x73B55FA3 && rk[18] == 0xCC874966 && rk[19] == 0x92244439 &&
      rk[20] == 0xE89E641F && rk[21] == 0x98CA015A && rk[22] == 0xC7159060 && rk[23] == 0x99E1FD2E &&
      rk[24] == 0xB79BD80C && rk[25] == 0x1D2115B0 && rk[26] == 0x0E228AEB && rk[27] == 0xF1780C81 &&
      rk[28] == 0x428D3654 && rk[29] == 0x62293496 && rk[30] == 0x01CF72E5 && rk[31] == 0x9124A012
    requires
      t(0xF002C39E) == 0x26D99622 && t(0xEE1470AC) == 0x2820815D &&
      t(0xAA4F1C7D) == 0xEF1D58B2 && t(0xEC195DAA) == 0xBA47D0FE &&
      t(0x4A2A2C82) == 0xDF868890 && t(0x52C45770) == 0x92A94BE5 &&
      t(0xB1F637DF) == 0x663520BD && t(0x98DCAF44) == 0xB6851005 &&
      t(0x9B600757) == 0xDFA69BAA && t(0x9DE0BDBE) == 0x71FF084E &&
      t(0xDC966E60) == 0xCF511895 && t(0xA3474E33) == 0xEAE7D511 &&
      t(0x0381926D) == 0xAC4FEBFC && t(0x939943CC) == 0x96F67340 &&
      t(0x8B75648F) == 0x97598233 && t(0x60069A4A) == 0x66EF4F72 &&
      t(0xDC69F8C8) == 0x24B11947 && t(0x05F35DDE) == 0x3935B407 &&
      t(0x7823DB74) == 0x7A5FE213 && t(0x85BD0481) == 0xE4D57022 &&
      t(0x42680EC9) == 0xC5C3409B && t(0xB5C5D18D) == 0x19D569A7 &&
      t(0x4B725B6C) == 0x486E4032 && t(0x1A00D498) == 0x3DBD1EA9 &&
      t(0x716B85E6) == 0x85153D83 && t(0xC0E8A67F) == 0x9B2FCA8C &&
      t(0xA1C2A841) == 0x94F9AABD && t(0xF85A7885) == 0x5465894F &&
      t(0xDFCE82C0) == 0xBC9C0D9A && t(0xC3E0A931) == 0xE957823A &&
      t(0xAF8156A0) == 0x5B32C6F3 && t(0x96FF9D45) == 0x138D5078
    ensures EncryptWith(f, KEY, rk) == CIPHERTEXT
  {
    assert 0x89ABCDEF ^ 0xFEDCBA98 ^ 0x76543210 ^ 0xF12186F9 == 0xF002C39E as word;
    assert 0xFEDCBA98 ^ 0x76543210 ^ 0x27FAD345 ^ 0x41662B61 == 0xEE1470AC as word;
    assert 0x76543210 ^ 0x27FAD345 ^ 0xA18B4CB2 ^ 0x5A6AB19A == 0xAA4F1C7D as word;
    assert 0x27FAD345 ^ 0xA18B4CB2 ^ 0x11C1E22A ^ 0x7BA92077 == 0xEC195DAA as word;
    assert 0xA18B4CB2 ^ 0x11C1E22A ^ 0xCC13E2EE ^ 0x367360F4 == 0x4A2A2C82 as word;
    assert 0x11C1E22A ^ 0xCC13E2EE ^ 0xF87C5BD5 ^ 0x776A0C61 == 0x52C45770 as word;
    assert 0xCC13E2EE ^ 0xF87C5BD5 ^ 0x33220757 ^ 0xB6BB89B3 == 0xB1F637DF as word;
    assert 0xF87C5BD5 ^ 0x33220757 ^ 0x77F4C297 ^ 0x24763151 == 0x98DCAF44 as word;
    assert 0x33220757 ^ 0x77F4C297 ^ 0x7A96F2EB ^ 0xA520307C == 0x9B600757 as word;
    assert 0x77F4C297 ^ 0x7A96F2EB ^ 0x27DAC07F ^ 0xB7584DBD == 0x9DE0BDBE as word;
    assert 0x7A96F2EB ^ 0x27DAC07F ^ 0x42DD0F19 ^ 0xC30753ED == 0xDC966E60 as word;
    assert 0x27DAC07F ^ 0x42DD0F19 ^ 0xB8A5DA02 ^ 0x7EE55B57 == 0xA3474E33 as word;
    assert 0x42DD0F19 ^ 0xB8A5DA02 ^ 0x907127FA ^ 0x6988608C == 0x0381926D as word;
    assert 0xB8A5DA02 ^ 0x907127FA ^ 0x8B952B83 ^ 0x30D895B7 == 0x939943CC as word;
    assert 0x907127FA ^ 0x8B952B83 ^ 0xD42B7C59 ^ 0x44BA14AF == 0x8B75648F as word;
    assert 0x8B952B83 ^ 0xD42B7C59 ^ 0x2FFC5831 ^ 0x104495A1 == 0x60069A4A as word;
    assert 0xD42B7C59 ^ 0x2FFC5831 ^ 0xF69E6888 ^ 0xD120B428 == 0xDC69F8C8 as word;
    assert 0x2FFC5831 ^ 0xF69E6888 ^ 0xAF2432C4 ^ 0x73B55FA3 == 0x05F35DDE as word;
    assert 0xF69E6888 ^ 0xAF2432C4 ^ 0xED1EC85E ^ 0xCC874966 == 0x7823DB74 as word;
    assert 0xAF2432C4 ^ 0xED1EC85E ^ 0x55A3BA22 ^ 0x92244439 == 0x85BD0481 as word;
    assert 0xED1EC85E ^ 0x55A3BA22 ^ 0x124B18AA ^ 0xE89E641F == 0x42680EC9 as word;
    assert 0x55A3BA22 ^ 0x124B18AA ^ 0x6AE7725F ^ 0x98CA015A == 0xB5C5D18D as word;
    assert 0x124B18AA ^ 0x6AE7725F ^ 0xF4CBA1F9 ^ 0xC7159060 == 0x4B725B6C as word;
    assert 0x6AE7725F ^ 0xF4CBA1F9 ^ 0x1DCDFA10 ^ 0x99E1FD2E == 0x1A00D498 as word;
    assert 0xF4CBA1F9 ^ 0x1DCDFA10 ^ 0x2FF60603 ^ 0xB79BD80C == 0x716B85E6 as word;
    assert 0x1DCDFA10 ^ 0x2FF60603 ^ 0xEFF24FDC ^ 0x1D2115B0 == 0xC0E8A67F as word;
    assert 0x2FF60603 ^ 0xEFF24FDC ^ 0x6FE46B75 ^ 0x0E228AEB == 0xA1C2A841 as word;
    assert 0xEFF24FDC ^ 0x6FE46B75 ^ 0x893450AD ^ 0xF1780C81 == 0xF85A7885 as word;
    assert 0x6FE46B75 ^ 0x893450AD ^ 0x7B938F4C ^ 0x428D3654 == 0xDFCE82C0 as word;
    assert 0x893450AD ^ 0x7B938F4C ^ 0x536E4246 ^ 0x62293496 == 0xC3E0A931 as word;
    assert 0x7B938F4C ^ 0x536E4246 ^ 0x86B3E94F ^ 0x01CF72E5 == 0xAF8156A0 as word;
    assert 0x536E4246 ^ 0x86B3E94F ^ 0xD206965E ^ 0x9124A012 == 0x96FF9D45 as word;
    LoadOfKey();
    RoundsOfKey(f, Load(KEY), rk);
    StoreOfCiphertext();
  }

  /** The round loop of sm4_encrypt on KEY with those round keys. */
  lemma CipherOfKey(rk: RoundKeys)
    requires
      rk[0] == 0xF12186F9 && rk[1] == 0x41662B61 && rk[2] == 0x5A6AB19A && rk[3] == 0x7BA92077 &&
      rk[4] == 0x367360F4 && rk[5] == 0x776A0C61 && rk[6] == 0xB6BB89B3 && rk[7] == 0x24763151 &&
      rk[8] == 0xA520307C && rk[9] == 0xB7584DBD && rk[10] == 0xC30753ED && rk[11] == 0x7EE55B57 &&
      rk[12] == 0x6988608C && rk[13] == 0x30D895B7 && rk[14] == 0x44BA14AF && rk[15] == 0x104495A1 &&
      rk[16] == 0xD120B428 && rk[17] == 0x73B55FA3 && rk[18] == 0xCC874966 && rk[19] == 0x92244439 &&
      rk[20] == 0xE89E641F && rk[21] == 0x98CA015A && rk[22] == 0xC7159060 && rk[23] == 0x99E1FD2E &&
      rk[24] == 0xB79BD80C && rk[25] == 0x1D2115B0 && rk[26] == 0x0E228AEB && rk[27] == 0xF1780C81 &&
      rk[28] == 0x428D3654 && rk[29] == 0x62293496 && rk[30] == 0x01CF72E5 && rk[31] == 0x9124A012
    ensures Encrypt(KEY, rk) == CIPHERTEXT
  {
    CipherRound0();
    CipherRound1();
    CipherRound2();
    CipherRound3();
    CipherRound4();
    CipherRound5();
    CipherRound6();
    CipherRound7();
    CipherRound8();
    CipherRound9();
    CipherRound10();
    CipherRound11();
    CipherRound12();
    CipherRound13();
    CipherRound14();
    CipherRound15();
    CipherRound16();
    CipherRound17();
    CipherRound18();
    CipherRound19();
    CipherRound20();
    CipherRound21();
    CipherRound22();
    CipherRound23();
    CipherRound24();
    CipherRound25();
    CipherRound26();
    CipherRound27();
    CipherRound28();
    CipherRound29();
    CipherRound30();
    CipherRound31();
    BlockOfKey(T, RoundF, rk);
  }

  /** The known answer: sm4_encrypt(sm4_key_schedule(KEY), KEY) is
      CIPHERTEXT. */
  lemma EncryptKnownAnswer()
    ensures Encrypt(KEY, KeySchedule(KEY)) == CIPHERTEXT
  {
    KeyScheduleOfKey();
    CipherOfKey(KeySchedule(KEY));
  }
}
