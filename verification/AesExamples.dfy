/** The example of appendix C.3 of FIPS 197: the key expansion, the rounds and the encrypted block. */
module AesExamples {
  import opened Gf256
  import opened AesTables
  import opened AesSpec

  /** The bytes 00 01 02 up to 1f. */
  function KEY(): Key {
    seq(KEY_BYTES, i requires 0 <= i < KEY_BYTES => i as byte)
  }

  function PLAIN(): Block {
    [0x00, 0x11, 0x22, 0x33, 0x44, 0x55, 0x66, 0x77, 0x88, 0x99, 0xaa, 0xbb, 0xcc, 0xdd, 0xee, 0xff]
  }

  function ENCRYPTED(): Block {
    [0x8e, 0xa2, 0xb7, 0xca, 0x51, 0x67, 0x45, 0xbf, 0xea, 0xfc, 0x49, 0x90, 0x4b, 0x49, 0x60, 0x89]
  }

  // The round keys, four words each.

  lemma NextWord(key: Key, i: nat)
    requires i >= 8
    ensures ExpandedWord(key, i) ==
            XorWords(ExpandedWord(key, i - 8),
                     if i % 8 == 0 then
                       XorWords(SubWord(RotWord(ExpandedWord(key, i - 1))), [RoundConstant(i / 8), 0, 0, 0])
                     else if i % 8 == 4 then
                       SubWord(ExpandedWord(key, i - 1))
                     else
                       ExpandedWord(key, i - 1))
  {
    hide XorWords, SubWord, RotWord, RoundConstant;
  }

  lemma FirstWord(key: Key, i: nat)
    requires i < 8
    ensures ExpandedWord(key, i) == [key[4 * i], key[4 * i + 1], key[4 * i + 2], key[4 * i + 3]]
  {}

  lemma RoundKeyOfWords(key: Key, round: nat)
    requires round <= ROUNDS
    ensures RoundKey(KeyExpansion(key), round) ==
            ExpandedWord(key, 4 * round) + ExpandedWord(key, 4 * round + 1)
            + ExpandedWord(key, 4 * round + 2) + ExpandedWord(key, 4 * round + 3)
  {
    hide ExpandedWord;
    var words := [ExpandedWord(key, 4 * round), ExpandedWord(key, 4 * round + 1),
                  ExpandedWord(key, 4 * round + 2), ExpandedWord(key, 4 * round + 3)];
    forall i: nat | i < BLOCK_BYTES
      ensures RoundKey(KeyExpansion(key), round)[i] == words[i / 4][i % 4]
    {
      assert (16 * round + i) / 4 == 4 * round + i / 4 && (16 * round + i) % 4 == i % 4;
    }
  }

  lemma Constants()
    ensures RoundConstant(1) == 0x01 && RoundConstant(2) == 0x02 && RoundConstant(3) == 0x04
    ensures RoundConstant(4) == 0x08 && RoundConstant(5) == 0x10 && RoundConstant(6) == 0x20 && RoundConstant(7) == 0x40
  {
    assert RoundConstant(4) == GF_p8_mul3(RoundConstant(3)) == 0x08;
    assert RoundConstant(6) == GF_p8_mul3(RoundConstant(5)) == 0x20;
  }

  lemma Words0()
    ensures ExpandedWord(KEY(), 0) == [0x00, 0x01, 0x02, 0x03]
    ensures ExpandedWord(KEY(), 1) == [0x04, 0x05, 0x06, 0x07]
    ensures ExpandedWord(KEY(), 2) == [0x08, 0x09, 0x0a, 0x0b]
    ensures ExpandedWord(KEY(), 3) == [0x0c, 0x0d, 0x0e, 0x0f]
  {
    hide ExpandedWord;
    FirstWord(KEY(), 0);
    FirstWord(KEY(), 1);
    FirstWord(KEY(), 2);
    FirstWord(KEY(), 3);
  }

  lemma Words1()
    ensures ExpandedWord(KEY(), 4) == [0x10, 0x11, 0x12, 0x13]
    ensures ExpandedWord(KEY(), 5) == [0x14, 0x15, 0x16, 0x17]
    ensures ExpandedWord(KEY(), 6) == [0x18, 0x19, 0x1a, 0x1b]
    ensures ExpandedWord(KEY(), 7) == [0x1c, 0x1d, 0x1e, 0x1f]
  {
    hide ExpandedWord;
    FirstWord(KEY(), 4);
    FirstWord(KEY(), 5);
    FirstWord(KEY(), 6);
    FirstWord(KEY(), 7);
  }

  lemma Words2()
    ensures ExpandedWord(KEY(), 8) == [0xa5, 0x73, 0xc2, 0x9f]
    ensures ExpandedWord(KEY(), 9) == [0xa1, 0x76, 0xc4, 0x98]
    ensures ExpandedWord(KEY(), 10) == [0xa9, 0x7f, 0xce, 0x93]
    ensures ExpandedWord(KEY(), 11) == [0xa5, 0x72, 0xc0, 0x9c]
  {
    hide KEY, ExpandedWord, RoundConstant, SubWord;
    Words0();
    Words1();
    Constants();
    SubWord2();
    NextWord(KEY(), 8);
    NextWord(KEY(), 9);
    NextWord(KEY(), 10);
    NextWord(KEY(), 11);
  }

  lemma SubWord2()
    ensures SubWord([0x1d, 0x1e, 0x1f, 0x1c]) == [0xa4, 0x72, 0xc0, 0x9c]
  {}

  lemma Words3()
    ensures ExpandedWord(KEY(), 12) == [0x16, 0x51, 0xa8, 0xcd]
    ensures ExpandedWord(KEY(), 13) == [0x02, 0x44, 0xbe, 0xda]
    ensures ExpandedWord(KEY(), 14) == [0x1a, 0x5d, 0xa4, 0xc1]
    ensures ExpandedWord(KEY(), 15) == [0x06, 0x40, 0xba, 0xde]
  {
    hide KEY, ExpandedWord, RoundConstant, SubWord;
    Words1();
    Words2();
    SubWord3();
    NextWord(KEY(), 12);
    NextWord(KEY(), 13);
    NextWord(KEY(), 14);
    NextWord(KEY(), 15);
  }

  lemma SubWord3()
    ensures SubWord([0xa5, 0x72, 0xc0, 0x9c]) == [0x06, 0x40, 0xba, 0xde]
  {}

  lemma Words4()
    ensures ExpandedWord(KEY(), 16) == [0xae, 0x87, 0xdf, 0xf0]
    ensures ExpandedWord(KEY(), 17) == [0x0f, 0xf1, 0x1b, 0x68]
    ensures ExpandedWord(KEY(), 18) == [0xa6, 0x8e, 0xd5, 0xfb]
    ensures ExpandedWord(KEY(), 19) == [0x03, 0xfc, 0x15, 0x67]
  {
    hide KEY, ExpandedWord, RoundConstant, SubWord;
    Words2();
    Words3();
    Constants();
    SubWord4();
    NextWord(KEY(), 16);
    NextWord(KEY(), 17);
    NextWord(KEY(), 18);
    NextWord(KEY(), 19);
  }

  lemma SubWord4()
    ensures SubWord([0x40, 0xba, 0xde, 0x06]) == [0x09, 0xf4, 0x1d, 0x6f]
  {}

  lemma Words5()
    ensures ExpandedWord(KEY(), 20) == [0x6d, 0xe1, 0xf1, 0x48]
    ensures ExpandedWord(KEY(), 21) == [0x6f, 0xa5, 0x4f, 0x92]
    ensures ExpandedWord(KEY(), 22) == [0x75, 0xf8, 0xeb, 0x53]
    ensures ExpandedWord(KEY(), 23) == [0x73, 0xb8, 0x51, 0x8d]
  {
    hide KEY, ExpandedWord, RoundConstant, SubWord;
    Words3();
    Words4();
    SubWord5();
    NextWord(KEY(), 20);
    NextWord(KEY(), 21);
    NextWord(KEY(), 22);
    NextWord(KEY(), 23);
  }

  lemma SubWord5()
    ensures SubWord([0x03, 0xfc, 0x15, 0x67]) == [0x7b, 0xb0, 0x59, 0x85]
  {}

  lemma Words6()
    ensures ExpandedWord(KEY(), 24) == [0xc6, 0x56, 0x82, 0x7f]
    ensures ExpandedWord(KEY(), 25) == [0xc9, 0xa7, 0x99, 0x17]
    ensures ExpandedWord(KEY(), 26) == [0x6f, 0x29, 0x4c, 0xec]
    ensures ExpandedWord(KEY(), 27) == [0x6c, 0xd5, 0x59, 0x8b]
  {
    hide KEY, ExpandedWord, RoundConstant, SubWord;
    Words4();
    Words5();
    Constants();
    SubWord6();
    NextWord(KEY(), 24);
    NextWord(KEY(), 25);
    NextWord(KEY(), 26);
    NextWord(KEY(), 27);
  }

  lemma SubWord6()
    ensures SubWord([0xb8, 0x51, 0x8d, 0x73]) == [0x6c, 0xd1, 0x5d, 0x8f]
  {}

  lemma Words7()
    ensures ExpandedWord(KEY(), 28) == [0x3d, 0xe2, 0x3a, 0x75]
    ensures ExpandedWord(KEY(), 29) == [0x52, 0x47, 0x75, 0xe7]
    ensures ExpandedWord(KEY(), 30) == [0x27, 0xbf, 0x9e, 0xb4]
    ensures ExpandedWord(KEY(), 31) == [0x54, 0x07, 0xcf, 0x39]
  {
    hide KEY, ExpandedWord, RoundConstant, SubWord;
    Words5();
    Words6();
    SubWord7();
    NextWord(KEY(), 28);
    NextWord(KEY(), 29);
    NextWord(KEY(), 30);
    NextWord(KEY(), 31);
  }

  lemma SubWord7()
    ensures SubWord([0x6c, 0xd5, 0x59, 0x8b]) == [0x50, 0x03, 0xcb, 0x3d]
  {}

  lemma Words8()
    ensures ExpandedWord(KEY(), 32) == [0x0b, 0xdc, 0x90, 0x5f]
    ensures ExpandedWord(KEY(), 33) == [0xc2, 0x7b, 0x09, 0x48]
    ensures ExpandedWord(KEY(), 34) == [0xad, 0x52, 0x45, 0xa4]
    ensures ExpandedWord(KEY(), 35) == [0xc1, 0x87, 0x1c, 0x2f]
  {
    hide KEY, ExpandedWord, RoundConstant, SubWord;
    Words6();
    Words7();
    Constants();
    SubWord8();
    NextWord(KEY(), 32);
    NextWord(KEY(), 33);
    NextWord(KEY(), 34);
    NextWord(KEY(), 35);
  }

  lemma SubWord8()
    ensures SubWord([0x07, 0xcf, 0x39, 0x54]) == [0xc5, 0x8a, 0x12, 0x20]
  {}

  lemma Words9()
    ensures ExpandedWord(KEY(), 36) == [0x45, 0xf5, 0xa6, 0x60]
    ensures ExpandedWord(KEY(), 37) == [0x17, 0xb2, 0xd3, 0x87]
    ensures ExpandedWord(KEY(), 38) == [0x30, 0x0d, 0x4d, 0x33]
    ensures ExpandedWord(KEY(), 39) == [0x64, 0x0a, 0x82, 0x0a]
  {
    hide KEY, ExpandedWord, RoundConstant, SubWord;
    Words7();
    Words8();
    SubWord9();
    NextWord(KEY(), 36);
    NextWord(KEY(), 37);
    NextWord(KEY(), 38);
    NextWord(KEY(), 39);
  }

  lemma SubWord9()
    ensures SubWord([0xc1, 0x87, 0x1c, 0x2f]) == [0x78, 0x17, 0x9c, 0x15]
  {}

  lemma Words10()
    ensures ExpandedWord(KEY(), 40) == [0x7c, 0xcf, 0xf7, 0x1c]
    ensures ExpandedWord(KEY(), 41) == [0xbe, 0xb4, 0xfe, 0x54]
    ensures ExpandedWord(KEY(), 42) == [0x13, 0xe6, 0xbb, 0xf0]
    ensures ExpandedWord(KEY(), 43) == [0xd2, 0x61, 0xa7, 0xdf]
  {
    hide KEY, ExpandedWord, RoundConstant, SubWord;
    Words8();
    Words9();
    Constants();
    SubWord10();
    NextWord(KEY(), 40);
    NextWord(KEY(), 41);
    NextWord(KEY(), 42);
    NextWord(KEY(), 43);
  }

  lemma SubWord10()
    ensures SubWord([0x0a, 0x82, 0x0a, 0x64]) == [0x67, 0x13, 0x67, 0x43]
  {}

  lemma Words11()
    ensures ExpandedWord(KEY(), 44) == [0xf0, 0x1a, 0xfa, 0xfe]
    ensures ExpandedWord(KEY(), 45) == [0xe7, 0xa8, 0x29, 0x79]
    ensures ExpandedWord(KEY(), 46) == [0xd7, 0xa5, 0x64, 0x4a]
    ensures ExpandedWord(KEY(), 47) == [0xb3, 0xaf, 0xe6, 0x40]
  {
    hide KEY, ExpandedWord, RoundConstant, SubWord;
    Words9();
    Words10();
    SubWord11();
    NextWord(KEY(), 44);
    NextWord(KEY(), 45);
    NextWord(KEY(), 46);
    NextWord(KEY(), 47);
  }

  lemma SubWord11()
    ensures SubWord([0xd2, 0x61, 0xa7, 0xdf]) == [0xb5, 0xef, 0x5c, 0x9e]
  {}

  lemma Words12()
    ensures ExpandedWord(KEY(), 48) == [0x25, 0x41, 0xfe, 0x71]
    ensures ExpandedWord(KEY(), 49) == [0x9b, 0xf5, 0x00, 0x25]
    ensures ExpandedWord(KEY(), 50) == [0x88, 0x13, 0xbb, 0xd5]
    ensures ExpandedWord(KEY(), 51) == [0x5a, 0x72, 0x1c, 0x0a]
  {
    hide KEY, ExpandedWord, RoundConstant, SubWord;
    Words10();
    Words11();
    Constants();
    SubWord12();
    NextWord(KEY(), 48);
    NextWord(KEY(), 49);
    NextWord(KEY(), 50);
    NextWord(KEY(), 51);
  }

  lemma SubWord12()
    ensures SubWord([0xaf, 0xe6, 0x40, 0xb3]) == [0x79, 0x8e, 0x09, 0x6d]
  {}

  lemma Words13()
    ensures ExpandedWord(KEY(), 52) == [0x4e, 0x5a, 0x66, 0x99]
    ensures ExpandedWord(KEY(), 53) == [0xa9, 0xf2, 0x4f, 0xe0]
    ensures ExpandedWord(KEY(), 54) == [0x7e, 0x57, 0x2b, 0xaa]
    ensures ExpandedWord(KEY(), 55) == [0xcd, 0xf8, 0xcd, 0xea]
  {
    hide KEY, ExpandedWord, RoundConstant, SubWord;
    Words11();
    Words12();
    SubWord13();
    NextWord(KEY(), 52);
    NextWord(KEY(), 53);
    NextWord(KEY(), 54);
    NextWord(KEY(), 55);
  }

  lemma SubWord13()
    ensures SubWord([0x5a, 0x72, 0x1c, 0x0a]) == [0xbe, 0x40, 0x9c, 0x67]
  {}

  lemma Words14()
    ensures ExpandedWord(KEY(), 56) == [0x24, 0xfc, 0x79, 0xcc]
    ensures ExpandedWord(KEY(), 57) == [0xbf, 0x09, 0x79, 0xe9]
    ensures ExpandedWord(KEY(), 58) == [0x37, 0x1a, 0xc2, 0x3c]
    ensures ExpandedWord(KEY(), 59) == [0x6d, 0x68, 0xde, 0x36]
  {
    hide KEY, ExpandedWord, RoundConstant, SubWord;
    Words12();
    Words13();
    Constants();
    SubWord14();
    NextWord(KEY(), 56);
    NextWord(KEY(), 57);
    NextWord(KEY(), 58);
    NextWord(KEY(), 59);
  }

  lemma SubWord14()
    ensures SubWord([0xf8, 0xcd, 0xea, 0xcd]) == [0x41, 0xbd, 0x87, 0xbd]
  {}

  // The round transformations byte by byte.

  lemma AddRoundKeyBytes(s: Block, k: Block)
    ensures AddRoundKey(s, k) ==
            [Xor(s[0], k[0]), Xor(s[1], k[1]), Xor(s[2], k[2]), Xor(s[3], k[3]),
             Xor(s[4], k[4]), Xor(s[5], k[5]), Xor(s[6], k[6]), Xor(s[7], k[7]),
             Xor(s[8], k[8]), Xor(s[9], k[9]), Xor(s[10], k[10]), Xor(s[11], k[11]),
             Xor(s[12], k[12]), Xor(s[13], k[13]), Xor(s[14], k[14]), Xor(s[15], k[15])]
  {
    hide Xor;
  }

  lemma SubBytesBytes(s: Block)
    ensures SubBytes(s) ==
            [SBox(s[0]), SBox(s[1]), SBox(s[2]), SBox(s[3]), SBox(s[4]), SBox(s[5]), SBox(s[6]), SBox(s[7]),
             SBox(s[8]), SBox(s[9]), SBox(s[10]), SBox(s[11]), SBox(s[12]), SBox(s[13]), SBox(s[14]), SBox(s[15])]
  {
    hide SBox;
  }

  // The state after every round.

  lemma State0()
    ensures Rounds(KeyExpansion(KEY()), PLAIN(), 0) ==
            [0x00, 0x10, 0x20, 0x30, 0x40, 0x50, 0x60, 0x70, 0x80, 0x90, 0xa0, 0xb0, 0xc0, 0xd0, 0xe0, 0xf0]
  {
    hide KEY, KeyExpansion, ExpandedWord, RoundKey, AddRoundKey;
    Words0();
    RoundKeyOfWords(KEY(), 0);
    assert RoundKey(KeyExpansion(KEY()), 0) ==
           [0x00, 0x01, 0x02, 0x03, 0x04, 0x05, 0x06, 0x07, 0x08, 0x09, 0x0a, 0x0b, 0x0c, 0x0d, 0x0e, 0x0f];
    AddRoundKeyBytes(
      PLAIN(),
      [0x00, 0x01, 0x02, 0x03, 0x04, 0x05, 0x06, 0x07, 0x08, 0x09, 0x0a, 0x0b, 0x0c, 0x0d, 0x0e, 0x0f]);
  }

  lemma Substituted1()
    ensures
      SubBytes([0x00, 0x10, 0x20, 0x30, 0x40, 0x50, 0x60, 0x70, 0x80, 0x90, 0xa0, 0xb0, 0xc0, 0xd0, 0xe0, 0xf0]) ==
      [0x63, 0xca, 0xb7, 0x04, 0x09, 0x53, 0xd0, 0x51, 0xcd, 0x60, 0xe0, 0xe7, 0xba, 0x70, 0xe1, 0x8c]
  {
    hide SubBytes;
    SubBytesBytes([0x00, 0x10, 0x20, 0x30, 0x40, 0x50, 0x60, 0x70, 0x80, 0x90, 0xa0, 0xb0, 0xc0, 0xd0, 0xe0, 0xf0]);
  }

  lemma Mixed1()
    ensures
      MixColumns([0x63, 0x53, 0xe0, 0x8c, 0x09, 0x60, 0xe1, 0x04, 0xcd, 0x70, 0xb7, 0x51, 0xba, 0xca, 0xd0, 0xe7]) ==
      [0x5f, 0x72, 0x64, 0x15, 0x57, 0xf5, 0xbc, 0x92, 0xf7, 0xbe, 0x3b, 0x29, 0x1d, 0xb9, 0xf9, 0x1a]
  {}

  lemma Keyed1()
    ensures
      AddRoundKey(
        [0x5f, 0x72, 0x64, 0x15, 0x57, 0xf5, 0xbc, 0x92, 0xf7, 0xbe, 0x3b, 0x29, 0x1d, 0xb9, 0xf9, 0x1a],
        [0x10, 0x11, 0x12, 0x13, 0x14, 0x15, 0x16, 0x17, 0x18, 0x19, 0x1a, 0x1b, 0x1c, 0x1d, 0x1e, 0x1f]) ==
      [0x4f, 0x63, 0x76, 0x06, 0x43, 0xe0, 0xaa, 0x85, 0xef, 0xa7, 0x21, 0x32, 0x01, 0xa4, 0xe7, 0x05]
  {
    hide AddRoundKey;
    AddRoundKeyBytes(
      [0x5f, 0x72, 0x64, 0x15, 0x57, 0xf5, 0xbc, 0x92, 0xf7, 0xbe, 0x3b, 0x29, 0x1d, 0xb9, 0xf9, 0x1a],
      [0x10, 0x11, 0x12, 0x13, 0x14, 0x15, 0x16, 0x17, 0x18, 0x19, 0x1a, 0x1b, 0x1c, 0x1d, 0x1e, 0x1f]);
  }

  lemma State1()
    ensures Rounds(KeyExpansion(KEY()), PLAIN(), 1) ==
            [0x4f, 0x63, 0x76, 0x06, 0x43, 0xe0, 0xaa, 0x85, 0xef, 0xa7, 0x21, 0x32, 0x01, 0xa4, 0xe7, 0x05]
  {
    hide KEY, PLAIN, KeyExpansion, ExpandedWord, RoundKey, SubBytes, MixColumns, AddRoundKey;
    State0();
    Words1();
    RoundKeyOfWords(KEY(), 1);
    assert RoundKey(KeyExpansion(KEY()), 1) ==
           [0x10, 0x11, 0x12, 0x13, 0x14, 0x15, 0x16, 0x17, 0x18, 0x19, 0x1a, 0x1b, 0x1c, 0x1d, 0x1e, 0x1f];
    Substituted1();
    Mixed1();
    Keyed1();
  }

  lemma Substituted2()
    ensures
      SubBytes([0x4f, 0x63, 0x76, 0x06, 0x43, 0xe0, 0xaa, 0x85, 0xef, 0xa7, 0x21, 0x32, 0x01, 0xa4, 0xe7, 0x05]) ==
      [0x84, 0xfb, 0x38, 0x6f, 0x1a, 0xe1, 0xac, 0x97, 0xdf, 0x5c, 0xfd, 0x23, 0x7c, 0x49, 0x94, 0x6b]
  {
    hide SubBytes;
    SubBytesBytes([0x4f, 0x63, 0x76, 0x06, 0x43, 0xe0, 0xaa, 0x85, 0xef, 0xa7, 0x21, 0x32, 0x01, 0xa4, 0xe7, 0x05]);
  }

  lemma Mixed2()
    ensures
      MixColumns([0x84, 0xe1, 0xfd, 0x6b, 0x1a, 0x5c, 0x94, 0x6f, 0xdf, 0x49, 0x38, 0x97, 0x7c, 0xfb, 0xac, 0x23]) ==
      [0xbd, 0x2a, 0x39, 0x5d, 0x2b, 0x6a, 0xc4, 0x38, 0xd1, 0x92, 0x44, 0x3e, 0x61, 0x5d, 0xa1, 0x95]
  {}

  lemma Keyed2()
    ensures
      AddRoundKey(
        [0xbd, 0x2a, 0x39, 0x5d, 0x2b, 0x6a, 0xc4, 0x38, 0xd1, 0x92, 0x44, 0x3e, 0x61, 0x5d, 0xa1, 0x95],
        [0xa5, 0x73, 0xc2, 0x9f, 0xa1, 0x76, 0xc4, 0x98, 0xa9, 0x7f, 0xce, 0x93, 0xa5, 0x72, 0xc0, 0x9c]) ==
      [0x18, 0x59, 0xfb, 0xc2, 0x8a, 0x1c, 0x00, 0xa0, 0x78, 0xed, 0x8a, 0xad, 0xc4, 0x2f, 0x61, 0x09]
  {
    hide AddRoundKey;
    AddRoundKeyBytes(
      [0xbd, 0x2a, 0x39, 0x5d, 0x2b, 0x6a, 0xc4, 0x38, 0xd1, 0x92, 0x44, 0x3e, 0x61, 0x5d, 0xa1, 0x95],
      [0xa5, 0x73, 0xc2, 0x9f, 0xa1, 0x76, 0xc4, 0x98, 0xa9, 0x7f, 0xce, 0x93, 0xa5, 0x72, 0xc0, 0x9c]);
  }

  lemma State2()
    ensures Rounds(KeyExpansion(KEY()), PLAIN(), 2) ==
            [0x18, 0x59, 0xfb, 0xc2, 0x8a, 0x1c, 0x00, 0xa0, 0x78, 0xed, 0x8a, 0xad, 0xc4, 0x2f, 0x61, 0x09]
  {
    hide KEY, PLAIN, KeyExpansion, ExpandedWord, RoundKey, SubBytes, MixColumns, AddRoundKey;
    State1();
    Words2();
    RoundKeyOfWords(KEY(), 2);
    assert RoundKey(KeyExpansion(KEY()), 2) ==
           [0xa5, 0x73, 0xc2, 0x9f, 0xa1, 0x76, 0xc4, 0x98, 0xa9, 0x7f, 0xce, 0x93, 0xa5, 0x72, 0xc0, 0x9c];
    Substituted2();
    Mixed2();
    Keyed2();
  }

  lemma Substituted3()
    ensures
      SubBytes([0x18, 0x59, 0xfb, 0xc2, 0x8a, 0x1c, 0x00, 0xa0, 0x78, 0xed, 0x8a, 0xad, 0xc4, 0x2f, 0x61, 0x09]) ==
      [0xad, 0xcb, 0x0f, 0x25, 0x7e, 0x9c, 0x63, 0xe0, 0xbc, 0x55, 0x7e, 0x95, 0x1c, 0x15, 0xef, 0x01]
  {
    hide SubBytes;
    SubBytesBytes([0x18, 0x59, 0xfb, 0xc2, 0x8a, 0x1c, 0x00, 0xa0, 0x78, 0xed, 0x8a, 0xad, 0xc4, 0x2f, 0x61, 0x09]);
  }

  lemma Mixed3()
    ensures
      MixColumns([0xad, 0x9c, 0x7e, 0x01, 0x7e, 0x55, 0xef, 0x25, 0xbc, 0x15, 0x0f, 0xe0, 0x1c, 0xcb, 0x63, 0x95]) ==
      [0x81, 0x0d, 0xce, 0x0c, 0xc9, 0xdb, 0x81, 0x72, 0xb3, 0x67, 0x8c, 0x1e, 0x88, 0xa1, 0xb5, 0xbd]
  {}

  lemma Keyed3()
    ensures
      AddRoundKey(
        [0x81, 0x0d, 0xce, 0x0c, 0xc9, 0xdb, 0x81, 0x72, 0xb3, 0x67, 0x8c, 0x1e, 0x88, 0xa1, 0xb5, 0xbd],
        [0x16, 0x51, 0xa8, 0xcd, 0x02, 0x44, 0xbe, 0xda, 0x1a, 0x5d, 0xa4, 0xc1, 0x06, 0x40, 0xba, 0xde]) ==
      [0x97, 0x5c, 0x66, 0xc1, 0xcb, 0x9f, 0x3f, 0xa8, 0xa9, 0x3a, 0x28, 0xdf, 0x8e, 0xe1, 0x0f, 0x63]
  {
    hide AddRoundKey;
    AddRoundKeyBytes(
      [0x81, 0x0d, 0xce, 0x0c, 0xc9, 0xdb, 0x81, 0x72, 0xb3, 0x67, 0x8c, 0x1e, 0x88, 0xa1, 0xb5, 0xbd],
      [0x16, 0x51, 0xa8, 0xcd, 0x02, 0x44, 0xbe, 0xda, 0x1a, 0x5d, 0xa4, 0xc1, 0x06, 0x40, 0xba, 0xde]);
  }

  lemma State3()
    ensures Rounds(KeyExpansion(KEY()), PLAIN(), 3) ==
            [0x97, 0x5c, 0x66, 0xc1, 0xcb, 0x9f, 0x3f, 0xa8, 0xa9, 0x3a, 0x28, 0xdf, 0x8e, 0xe1, 0x0f, 0x63]
  {
    hide KEY, PLAIN, KeyExpansion, ExpandedWord, RoundKey, SubBytes, MixColumns, AddRoundKey;
    State2();
    Words3();
    RoundKeyOfWords(KEY(), 3);
    assert RoundKey(KeyExpansion(KEY()), 3) ==
           [0x16, 0x51, 0xa8, 0xcd, 0x02, 0x44, 0xbe, 0xda, 0x1a, 0x5d, 0xa4, 0xc1, 0x06, 0x40, 0xba, 0xde];
    Substituted3();
    Mixed3();
    Keyed3();
  }

  lemma Substituted4()
    ensures
      SubBytes([0x97, 0x5c, 0x66, 0xc1, 0xcb, 0x9f, 0x3f, 0xa8, 0xa9, 0x3a, 0x28, 0xdf, 0x8e, 0xe1, 0x0f, 0x63]) ==
      [0x88, 0x4a, 0x33, 0x78, 0x1f, 0xdb, 0x75, 0xc2, 0xd3, 0x80, 0x34, 0x9e, 0x19, 0xf8, 0x76, 0xfb]
  {
    hide SubBytes;
    SubBytesBytes([0x97, 0x5c, 0x66, 0xc1, 0xcb, 0x9f, 0x3f, 0xa8, 0xa9, 0x3a, 0x28, 0xdf, 0x8e, 0xe1, 0x0f, 0x63]);
  }

  lemma Mixed4()
    ensures
      MixColumns([0x88, 0xdb, 0x34, 0xfb, 0x1f, 0x80, 0x76, 0x78, 0xd3, 0xf8, 0x33, 0xc2, 0x19, 0x4a, 0x75, 0x9e]) ==
      [0xb2, 0x82, 0x2d, 0x81, 0xab, 0xe6, 0xfb, 0x27, 0x5f, 0xaf, 0x10, 0x3a, 0x07, 0x8c, 0x00, 0x33]
  {}

  lemma Keyed4()
    ensures
      AddRoundKey(
        [0xb2, 0x82, 0x2d, 0x81, 0xab, 0xe6, 0xfb, 0x27, 0x5f, 0xaf, 0x10, 0x3a, 0x07, 0x8c, 0x00, 0x33],
        [0xae, 0x87, 0xdf, 0xf0, 0x0f, 0xf1, 0x1b, 0x68, 0xa6, 0x8e, 0xd5, 0xfb, 0x03, 0xfc, 0x15, 0x67]) ==
      [0x1c, 0x05, 0xf2, 0x71, 0xa4, 0x17, 0xe0, 0x4f, 0xf9, 0x21, 0xc5, 0xc1, 0x04, 0x70, 0x15, 0x54]
  {
    hide AddRoundKey;
    AddRoundKeyBytes(
      [0xb2, 0x82, 0x2d, 0x81, 0xab, 0xe6, 0xfb, 0x27, 0x5f, 0xaf, 0x10, 0x3a, 0x07, 0x8c, 0x00, 0x33],
      [0xae, 0x87, 0xdf, 0xf0, 0x0f, 0xf1, 0x1b, 0x68, 0xa6, 0x8e, 0xd5, 0xfb, 0x03, 0xfc, 0x15, 0x67]);
  }

  lemma State4()
    ensures Rounds(KeyExpansion(KEY()), PLAIN(), 4) ==
            [0x1c, 0x05, 0xf2, 0x71, 0xa4, 0x17, 0xe0, 0x4f, 0xf9, 0x21, 0xc5, 0xc1, 0x04, 0x70, 0x15, 0x54]
  {
    hide KEY, PLAIN, KeyExpansion, ExpandedWord, RoundKey, SubBytes, MixColumns, AddRoundKey;
    State3();
    Words4();
    RoundKeyOfWords(KEY(), 4);
    assert RoundKey(KeyExpansion(KEY()), 4) ==
           [0xae, 0x87, 0xdf, 0xf0, 0x0f, 0xf1, 0x1b, 0x68, 0xa6, 0x8e, 0xd5, 0xfb, 0x03, 0xfc, 0x15, 0x67];
    Substituted4();
    Mixed4();
    Keyed4();
  }

  lemma Substituted5()
    ensures
      SubBytes([0x1c, 0x05, 0xf2, 0x71, 0xa4, 0x17, 0xe0, 0x4f, 0xf9, 0x21, 0xc5, 0xc1, 0x04, 0x70, 0x15, 0x54]) ==
      [0x9c, 0x6b, 0x89, 0xa3, 0x49, 0xf0, 0xe1, 0x84, 0x99, 0xfd, 0xa6, 0x78, 0xf2, 0x51, 0x59, 0x20]
  {
    hide SubBytes;
    SubBytesBytes([0x1c, 0x05, 0xf2, 0x71, 0xa4, 0x17, 0xe0, 0x4f, 0xf9, 0x21, 0xc5, 0xc1, 0x04, 0x70, 0x15, 0x54]);
  }

  lemma Mixed5()
    ensures
      MixColumns([0x9c, 0xf0, 0xa6, 0x20, 0x49, 0xfd, 0x59, 0xa3, 0x99, 0x51, 0x89, 0x84, 0xf2, 0x6b, 0xe1, 0x78]) ==
      [0xae, 0xb6, 0x5b, 0xa9, 0x74, 0xe0, 0xf8, 0x22, 0xd7, 0x3f, 0x56, 0x7b, 0xdb, 0x64, 0xc8, 0x77]
  {}

  lemma Keyed5()
    ensures
      AddRoundKey(
        [0xae, 0xb6, 0x5b, 0xa9, 0x74, 0xe0, 0xf8, 0x22, 0xd7, 0x3f, 0x56, 0x7b, 0xdb, 0x64, 0xc8, 0x77],
        [0x6d, 0xe1, 0xf1, 0x48, 0x6f, 0xa5, 0x4f, 0x92, 0x75, 0xf8, 0xeb, 0x53, 0x73, 0xb8, 0x51, 0x8d]) ==
      [0xc3, 0x57, 0xaa, 0xe1, 0x1b, 0x45, 0xb7, 0xb0, 0xa2, 0xc7, 0xbd, 0x28, 0xa8, 0xdc, 0x99, 0xfa]
  {
    hide AddRoundKey;
    AddRoundKeyBytes(
      [0xae, 0xb6, 0x5b, 0xa9, 0x74, 0xe0, 0xf8, 0x22, 0xd7, 0x3f, 0x56, 0x7b, 0xdb, 0x64, 0xc8, 0x77],
      [0x6d, 0xe1, 0xf1, 0x48, 0x6f, 0xa5, 0x4f, 0x92, 0x75, 0xf8, 0xeb, 0x53, 0x73, 0xb8, 0x51, 0x8d]);
  }

  lemma State5()
    ensures Rounds(KeyExpansion(KEY()), PLAIN(), 5) ==
            [0xc3, 0x57, 0xaa, 0xe1, 0x1b, 0x45, 0xb7, 0xb0, 0xa2, 0xc7, 0xbd, 0x28, 0xa8, 0xdc, 0x99, 0xfa]
  {
    hide KEY, PLAIN, KeyExpansion, ExpandedWord, RoundKey, SubBytes, MixColumns, AddRoundKey;
    State4();
    Words5();
    RoundKeyOfWords(KEY(), 5);
    assert RoundKey(KeyExpansion(KEY()), 5) ==
           [0x6d, 0xe1, 0xf1, 0x48, 0x6f, 0xa5, 0x4f, 0x92, 0x75, 0xf8, 0xeb, 0x53, 0x73, 0xb8, 0x51, 0x8d];
    Substituted5();
    Mixed5();
    Keyed5();
  }

  lemma Substituted6()
    ensures
      SubBytes([0xc3, 0x57, 0xaa, 0xe1, 0x1b, 0x45, 0xb7, 0xb0, 0xa2, 0xc7, 0xbd, 0x28, 0xa8, 0xdc, 0x99, 0xfa]) ==
      [0x2e, 0x5b, 0xac, 0xf8, 0xaf, 0x6e, 0xa9, 0xe7, 0x3a, 0xc6, 0x7a, 0x34, 0xc2, 0x86, 0xee, 0x2d]
  {
    hide SubBytes;
    SubBytesBytes([0xc3, 0x57, 0xaa, 0xe1, 0x1b, 0x45, 0xb7, 0xb0, 0xa2, 0xc7, 0xbd, 0x28, 0xa8, 0xdc, 0x99, 0xfa]);
  }

  lemma Mixed6()
    ensures
      MixColumns([0x2e, 0x6e, 0x7a, 0x2d, 0xaf, 0xc6, 0xee, 0xf8, 0x3a, 0x86, 0xac, 0xe7, 0xc2, 0x5b, 0xa9, 0x34]) ==
      [0xb9, 0x51, 0xc3, 0x3c, 0x02, 0xe9, 0xbd, 0x29, 0xae, 0x25, 0xcd, 0xb1, 0xef, 0xa0, 0x8c, 0xc7]
  {}

  lemma Keyed6()
    ensures
      AddRoundKey(
        [0xb9, 0x51, 0xc3, 0x3c, 0x02, 0xe9, 0xbd, 0x29, 0xae, 0x25, 0xcd, 0xb1, 0xef, 0xa0, 0x8c, 0xc7],
        [0xc6, 0x56, 0x82, 0x7f, 0xc9, 0xa7, 0x99, 0x17, 0x6f, 0x29, 0x4c, 0xec, 0x6c, 0xd5, 0x59, 0x8b]) ==
      [0x7f, 0x07, 0x41, 0x43, 0xcb, 0x4e, 0x24, 0x3e, 0xc1, 0x0c, 0x81, 0x5d, 0x83, 0x75, 0xd5, 0x4c]
  {
    hide AddRoundKey;
    AddRoundKeyBytes(
      [0xb9, 0x51, 0xc3, 0x3c, 0x02, 0xe9, 0xbd, 0x29, 0xae, 0x25, 0xcd, 0xb1, 0xef, 0xa0, 0x8c, 0xc7],
      [0xc6, 0x56, 0x82, 0x7f, 0xc9, 0xa7, 0x99, 0x17, 0x6f, 0x29, 0x4c, 0xec, 0x6c, 0xd5, 0x59, 0x8b]);
  }

  lemma State6()
    ensures Rounds(KeyExpansion(KEY()), PLAIN(), 6) ==
            [0x7f, 0x07, 0x41, 0x43, 0xcb, 0x4e, 0x24, 0x3e, 0xc1, 0x0c, 0x81, 0x5d, 0x83, 0x75, 0xd5, 0x4c]
  {
    hide KEY, PLAIN, KeyExpansion, ExpandedWord, RoundKey, SubBytes, MixColumns, AddRoundKey;
    State5();
    Words6();
    RoundKeyOfWords(KEY(), 6);
    assert RoundKey(KeyExpansion(KEY()), 6) ==
           [0xc6, 0x56, 0x82, 0x7f, 0xc9, 0xa7, 0x99, 0x17, 0x6f, 0x29, 0x4c, 0xec, 0x6c, 0xd5, 0x59, 0x8b];
    Substituted6();
    Mixed6();
    Keyed6();
  }

  lemma Substituted7()
    ensures
      SubBytes([0x7f, 0x07, 0x41, 0x43, 0xcb, 0x4e, 0x24, 0x3e, 0xc1, 0x0c, 0x81, 0x5d, 0x83, 0x75, 0xd5, 0x4c]) ==
      [0xd2, 0xc5, 0x83, 0x1a, 0x1f, 0x2f, 0x36, 0xb2, 0x78, 0xfe, 0x0c, 0x4c, 0xec, 0x9d, 0x03, 0x29]
  {
    hide SubBytes;
    SubBytesBytes([0x7f, 0x07, 0x41, 0x43, 0xcb, 0x4e, 0x24, 0x3e, 0xc1, 0x0c, 0x81, 0x5d, 0x83, 0x75, 0xd5, 0x4c]);
  }

  lemma Mixed7()
    ensures
      MixColumns([0xd2, 0x2f, 0x0c, 0x29, 0x1f, 0xfe, 0x03, 0x1a, 0x78, 0x9d, 0x83, 0xb2, 0xec, 0xc5, 0x36, 0x4c]) ==
      [0xeb, 0xb1, 0x9e, 0x1c, 0x3e, 0xe7, 0xc9, 0xe8, 0x7d, 0x75, 0x35, 0xe9, 0xed, 0x6b, 0x91, 0x44]
  {}

  lemma Keyed7()
    ensures
      AddRoundKey(
        [0xeb, 0xb1, 0x9e, 0x1c, 0x3e, 0xe7, 0xc9, 0xe8, 0x7d, 0x75, 0x35, 0xe9, 0xed, 0x6b, 0x91, 0x44],
        [0x3d, 0xe2, 0x3a, 0x75, 0x52, 0x47, 0x75, 0xe7, 0x27, 0xbf, 0x9e, 0xb4, 0x54, 0x07, 0xcf, 0x39]) ==
      [0xd6, 0x53, 0xa4, 0x69, 0x6c, 0xa0, 0xbc, 0x0f, 0x5a, 0xca, 0xab, 0x5d, 0xb9, 0x6c, 0x5e, 0x7d]
  {
    hide AddRoundKey;
    AddRoundKeyBytes(
      [0xeb, 0xb1, 0x9e, 0x1c, 0x3e, 0xe7, 0xc9, 0xe8, 0x7d, 0x75, 0x35, 0xe9, 0xed, 0x6b, 0x91, 0x44],
      [0x3d, 0xe2, 0x3a, 0x75, 0x52, 0x47, 0x75, 0xe7, 0x27, 0xbf, 0x9e, 0xb4, 0x54, 0x07, 0xcf, 0x39]);
  }

  lemma State7()
    ensures Rounds(KeyExpansion(KEY()), PLAIN(), 7) ==
            [0xd6, 0x53, 0xa4, 0x69, 0x6c, 0xa0, 0xbc, 0x0f, 0x5a, 0xca, 0xab, 0x5d, 0xb9, 0x6c, 0x5e, 0x7d]
  {
    hide KEY, PLAIN, KeyExpansion, ExpandedWord, RoundKey, SubBytes, MixColumns, AddRoundKey;
    State6();
    Words7();
    RoundKeyOfWords(KEY(), 7);
    assert RoundKey(KeyExpansion(KEY()), 7) ==
           [0x3d, 0xe2, 0x3a, 0x75, 0x52, 0x47, 0x75, 0xe7, 0x27, 0xbf, 0x9e, 0xb4, 0x54, 0x07, 0xcf, 0x39];
    Substituted7();
    Mixed7();
    Keyed7();
  }

  lemma Substituted8()
    ensures
      SubBytes([0xd6, 0x53, 0xa4, 0x69, 0x6c, 0xa0, 0xbc, 0x0f, 0x5a, 0xca, 0xab, 0x5d, 0xb9, 0x6c, 0x5e, 0x7d]) ==
      [0xf6, 0xed, 0x49, 0xf9, 0x50, 0xe0, 0x65, 0x76, 0xbe, 0x74, 0x62, 0x4c, 0x56, 0x50, 0x58, 0xff]
  {
    hide SubBytes;
    SubBytesBytes([0xd6, 0x53, 0xa4, 0x69, 0x6c, 0xa0, 0xbc, 0x0f, 0x5a, 0xca, 0xab, 0x5d, 0xb9, 0x6c, 0x5e, 0x7d]);
  }

  lemma Mixed8()
    ensures
      MixColumns([0xf6, 0xe0, 0x62, 0xff, 0x50, 0x74, 0x58, 0xf9, 0xbe, 0x50, 0x49, 0x76, 0x56, 0xed, 0x65, 0x4c]) ==
      [0x51, 0x74, 0xc8, 0x66, 0x9d, 0xa9, 0x84, 0x35, 0xa8, 0xb3, 0xe6, 0x2c, 0xa9, 0x74, 0xa5, 0xea]
  {}

  lemma Keyed8()
    ensures
      AddRoundKey(
        [0x51, 0x74, 0xc8, 0x66, 0x9d, 0xa9, 0x84, 0x35, 0xa8, 0xb3, 0xe6, 0x2c, 0xa9, 0x74, 0xa5, 0xea],
        [0x0b, 0xdc, 0x90, 0x5f, 0xc2, 0x7b, 0x09, 0x48, 0xad, 0x52, 0x45, 0xa4, 0xc1, 0x87, 0x1c, 0x2f]) ==
      [0x5a, 0xa8, 0x58, 0x39, 0x5f, 0xd2, 0x8d, 0x7d, 0x05, 0xe1, 0xa3, 0x88, 0x68, 0xf3, 0xb9, 0xc5]
  {
    hide AddRoundKey;
    AddRoundKeyBytes(
      [0x51, 0x74, 0xc8, 0x66, 0x9d, 0xa9, 0x84, 0x35, 0xa8, 0xb3, 0xe6, 0x2c, 0xa9, 0x74, 0xa5, 0xea],
      [0x0b, 0xdc, 0x90, 0x5f, 0xc2, 0x7b, 0x09, 0x48, 0xad, 0x52, 0x45, 0xa4, 0xc1, 0x87, 0x1c, 0x2f]);
  }

  lemma State8()
    ensures Rounds(KeyExpansion(KEY()), PLAIN(), 8) ==
            [0x5a, 0xa8, 0x58, 0x39, 0x5f, 0xd2, 0x8d, 0x7d, 0x05, 0xe1, 0xa3, 0x88, 0x68, 0xf3, 0xb9, 0xc5]
  {
    hide KEY, PLAIN, KeyExpansion, ExpandedWord, RoundKey, SubBytes, MixColumns, AddRoundKey;
    State7();
    Words8();
    RoundKeyOfWords(KEY(), 8);
    assert RoundKey(KeyExpansion(KEY()), 8) ==
           [0x0b, 0xdc, 0x90, 0x5f, 0xc2, 0x7b, 0x09, 0x48, 0xad, 0x52, 0x45, 0xa4, 0xc1, 0x87, 0x1c, 0x2f];
    Substituted8();
    Mixed8();
    Keyed8();
  }

  lemma Substituted9()
    ensures
      SubBytes([0x5a, 0xa8, 0x58, 0x39, 0x5f, 0xd2, 0x8d, 0x7d, 0x05, 0xe1, 0xa3, 0x88, 0x68, 0xf3, 0xb9, 0xc5]) ==
      [0xbe, 0xc2, 0x6a, 0x12, 0xcf, 0xb5, 0x5d, 0xff, 0x6b, 0xf8, 0x0a, 0xc4, 0x45, 0x0d, 0x56, 0xa6]
  {
    hide SubBytes;
    SubBytesBytes([0x5a, 0xa8, 0x58, 0x39, 0x5f, 0xd2, 0x8d, 0x7d, 0x05, 0xe1, 0xa3, 0x88, 0x68, 0xf3, 0xb9, 0xc5]);
  }

  lemma Mixed9()
    ensures
      MixColumns([0xbe, 0xb5, 0x0a, 0xa6, 0xcf, 0xf8, 0x56, 0x12, 0x6b, 0x0d, 0x6a, 0xff, 0x45, 0xc2, 0x5d, 0xc4]) ==
      [0x0f, 0x77, 0xee, 0x31, 0xd2, 0xcc, 0xad, 0xc0, 0x54, 0x30, 0xa8, 0x3f, 0x4e, 0xf9, 0x6a, 0xc3]
  {}

  lemma Keyed9()
    ensures
      AddRoundKey(
        [0x0f, 0x77, 0xee, 0x31, 0xd2, 0xcc, 0xad, 0xc0, 0x54, 0x30, 0xa8, 0x3f, 0x4e, 0xf9, 0x6a, 0xc3],
        [0x45, 0xf5, 0xa6, 0x60, 0x17, 0xb2, 0xd3, 0x87, 0x30, 0x0d, 0x4d, 0x33, 0x64, 0x0a, 0x82, 0x0a]) ==
      [0x4a, 0x82, 0x48, 0x51, 0xc5, 0x7e, 0x7e, 0x47, 0x64, 0x3d, 0xe5, 0x0c, 0x2a, 0xf3, 0xe8, 0xc9]
  {
    hide AddRoundKey;
    AddRoundKeyBytes(
      [0x0f, 0x77, 0xee, 0x31, 0xd2, 0xcc, 0xad, 0xc0, 0x54, 0x30, 0xa8, 0x3f, 0x4e, 0xf9, 0x6a, 0xc3],
      [0x45, 0xf5, 0xa6, 0x60, 0x17, 0xb2, 0xd3, 0x87, 0x30, 0x0d, 0x4d, 0x33, 0x64, 0x0a, 0x82, 0x0a]);
  }

  lemma State9()
    ensures Rounds(KeyExpansion(KEY()), PLAIN(), 9) ==
            [0x4a, 0x82, 0x48, 0x51, 0xc5, 0x7e, 0x7e, 0x47, 0x64, 0x3d, 0xe5, 0x0c, 0x2a, 0xf3, 0xe8, 0xc9]
  {
    hide KEY, PLAIN, KeyExpansion, ExpandedWord, RoundKey, SubBytes, MixColumns, AddRoundKey;
    State8();
    Words9();
    RoundKeyOfWords(KEY(), 9);
    assert RoundKey(KeyExpansion(KEY()), 9) ==
           [0x45, 0xf5, 0xa6, 0x60, 0x17, 0xb2, 0xd3, 0x87, 0x30, 0x0d, 0x4d, 0x33, 0x64, 0x0a, 0x82, 0x0a];
    Substituted9();
    Mixed9();
    Keyed9();
  }

  lemma Substituted10()
    ensures
      SubBytes([0x4a, 0x82, 0x48, 0x51, 0xc5, 0x7e, 0x7e, 0x47, 0x64, 0x3d, 0xe5, 0x0c, 0x2a, 0xf3, 0xe8, 0xc9]) ==
      [0xd6, 0x13, 0x52, 0xd1, 0xa6, 0xf3, 0xf3, 0xa0, 0x43, 0x27, 0xd9, 0xfe, 0xe5, 0x0d, 0x9b, 0xdd]
  {
    hide SubBytes;
    SubBytesBytes([0x4a, 0x82, 0x48, 0x51, 0xc5, 0x7e, 0x7e, 0x47, 0x64, 0x3d, 0xe5, 0x0c, 0x2a, 0xf3, 0xe8, 0xc9]);
  }

  lemma Mixed10()
    ensures
      MixColumns([0xd6, 0xf3, 0xd9, 0xdd, 0xa6, 0x27, 0x9b, 0xd1, 0x43, 0x0d, 0x52, 0xa0, 0xe5, 0x13, 0xf3, 0xfe]) ==
      [0xbd, 0x86, 0xf0, 0xea, 0x74, 0x8f, 0xc4, 0xf4, 0x63, 0x0f, 0x11, 0xc1, 0xe9, 0x33, 0x12, 0x33]
  {}

  lemma Keyed10()
    ensures
      AddRoundKey(
        [0xbd, 0x86, 0xf0, 0xea, 0x74, 0x8f, 0xc4, 0xf4, 0x63, 0x0f, 0x11, 0xc1, 0xe9, 0x33, 0x12, 0x33],
        [0x7c, 0xcf, 0xf7, 0x1c, 0xbe, 0xb4, 0xfe, 0x54, 0x13, 0xe6, 0xbb, 0xf0, 0xd2, 0x61, 0xa7, 0xdf]) ==
      [0xc1, 0x49, 0x07, 0xf6, 0xca, 0x3b, 0x3a, 0xa0, 0x70, 0xe9, 0xaa, 0x31, 0x3b, 0x52, 0xb5, 0xec]
  {
    hide AddRoundKey;
    AddRoundKeyBytes(
      [0xbd, 0x86, 0xf0, 0xea, 0x74, 0x8f, 0xc4, 0xf4, 0x63, 0x0f, 0x11, 0xc1, 0xe9, 0x33, 0x12, 0x33],
      [0x7c, 0xcf, 0xf7, 0x1c, 0xbe, 0xb4, 0xfe, 0x54, 0x13, 0xe6, 0xbb, 0xf0, 0xd2, 0x61, 0xa7, 0xdf]);
  }

  lemma State10()
    ensures Rounds(KeyExpansion(KEY()), PLAIN(), 10) ==
            [0xc1, 0x49, 0x07, 0xf6, 0xca, 0x3b, 0x3a, 0xa0, 0x70, 0xe9, 0xaa, 0x31, 0x3b, 0x52, 0xb5, 0xec]
  {
    hide KEY, PLAIN, KeyExpansion, ExpandedWord, RoundKey, SubBytes, MixColumns, AddRoundKey;
    State9();
    Words10();
    RoundKeyOfWords(KEY(), 10);
    assert RoundKey(KeyExpansion(KEY()), 10) ==
           [0x7c, 0xcf, 0xf7, 0x1c, 0xbe, 0xb4, 0xfe, 0x54, 0x13, 0xe6, 0xbb, 0xf0, 0xd2, 0x61, 0xa7, 0xdf];
    Substituted10();
    Mixed10();
    Keyed10();
  }

  lemma Substituted11()
    ensures
      SubBytes([0xc1, 0x49, 0x07, 0xf6, 0xca, 0x3b, 0x3a, 0xa0, 0x70, 0xe9, 0xaa, 0x31, 0x3b, 0x52, 0xb5, 0xec]) ==
      [0x78, 0x3b, 0xc5, 0x42, 0x74, 0xe2, 0x80, 0xe0, 0x51, 0x1e, 0xac, 0xc7, 0xe2, 0x00, 0xd5, 0xce]
  {
    hide SubBytes;
    SubBytesBytes([0xc1, 0x49, 0x07, 0xf6, 0xca, 0x3b, 0x3a, 0xa0, 0x70, 0xe9, 0xaa, 0x31, 0x3b, 0x52, 0xb5, 0xec]);
  }

  lemma Mixed11()
    ensures
      MixColumns([0x78, 0xe2, 0xac, 0xce, 0x74, 0x1e, 0xd5, 0x42, 0x51, 0x00, 0xc5, 0xe0, 0xe2, 0x3b, 0x80, 0xc7]) ==
      [0xaf, 0x86, 0x90, 0x41, 0x5d, 0x6e, 0x1d, 0xd3, 0x87, 0xe5, 0xfb, 0xed, 0xd5, 0xc8, 0x90, 0x13]
  {}

  lemma Keyed11()
    ensures
      AddRoundKey(
        [0xaf, 0x86, 0x90, 0x41, 0x5d, 0x6e, 0x1d, 0xd3, 0x87, 0xe5, 0xfb, 0xed, 0xd5, 0xc8, 0x90, 0x13],
        [0xf0, 0x1a, 0xfa, 0xfe, 0xe7, 0xa8, 0x29, 0x79, 0xd7, 0xa5, 0x64, 0x4a, 0xb3, 0xaf, 0xe6, 0x40]) ==
      [0x5f, 0x9c, 0x6a, 0xbf, 0xba, 0xc6, 0x34, 0xaa, 0x50, 0x40, 0x9f, 0xa7, 0x66, 0x67, 0x76, 0x53]
  {
    hide AddRoundKey;
    AddRoundKeyBytes(
      [0xaf, 0x86, 0x90, 0x41, 0x5d, 0x6e, 0x1d, 0xd3, 0x87, 0xe5, 0xfb, 0xed, 0xd5, 0xc8, 0x90, 0x13],
      [0xf0, 0x1a, 0xfa, 0xfe, 0xe7, 0xa8, 0x29, 0x79, 0xd7, 0xa5, 0x64, 0x4a, 0xb3, 0xaf, 0xe6, 0x40]);
  }

  lemma State11()
    ensures Rounds(KeyExpansion(KEY()), PLAIN(), 11) ==
            [0x5f, 0x9c, 0x6a, 0xbf, 0xba, 0xc6, 0x34, 0xaa, 0x50, 0x40, 0x9f, 0xa7, 0x66, 0x67, 0x76, 0x53]
  {
    hide KEY, PLAIN, KeyExpansion, ExpandedWord, RoundKey, SubBytes, MixColumns, AddRoundKey;
    State10();
    Words11();
    RoundKeyOfWords(KEY(), 11);
    assert RoundKey(KeyExpansion(KEY()), 11) ==
           [0xf0, 0x1a, 0xfa, 0xfe, 0xe7, 0xa8, 0x29, 0x79, 0xd7, 0xa5, 0x64, 0x4a, 0xb3, 0xaf, 0xe6, 0x40];
    Substituted11();
    Mixed11();
    Keyed11();
  }

  lemma Substituted12()
    ensures
      SubBytes([0x5f, 0x9c, 0x6a, 0xbf, 0xba, 0xc6, 0x34, 0xaa, 0x50, 0x40, 0x9f, 0xa7, 0x66, 0x67, 0x76, 0x53]) ==
      [0xcf, 0xde, 0x02, 0x08, 0xf4, 0xb4, 0x18, 0xac, 0x53, 0x09, 0xdb, 0x5c, 0x33, 0x85, 0x38, 0xed]
  {
    hide SubBytes;
    SubBytesBytes([0x5f, 0x9c, 0x6a, 0xbf, 0xba, 0xc6, 0x34, 0xaa, 0x50, 0x40, 0x9f, 0xa7, 0x66, 0x67, 0x76, 0x53]);
  }

  lemma Mixed12()
    ensures
      MixColumns([0xcf, 0xb4, 0xdb, 0xed, 0xf4, 0x09, 0x38, 0x08, 0x53, 0x85, 0x02, 0xac, 0x33, 0xde, 0x18, 0x5c]) ==
      [0x74, 0x27, 0xfa, 0xe4, 0xd8, 0xa6, 0x95, 0x26, 0x9c, 0xe8, 0x3d, 0x31, 0x5b, 0xe0, 0x39, 0x2b]
  {}

  lemma Keyed12()
    ensures
      AddRoundKey(
        [0x74, 0x27, 0xfa, 0xe4, 0xd8, 0xa6, 0x95, 0x26, 0x9c, 0xe8, 0x3d, 0x31, 0x5b, 0xe0, 0x39, 0x2b],
        [0x25, 0x41, 0xfe, 0x71, 0x9b, 0xf5, 0x00, 0x25, 0x88, 0x13, 0xbb, 0xd5, 0x5a, 0x72, 0x1c, 0x0a]) ==
      [0x51, 0x66, 0x04, 0x95, 0x43, 0x53, 0x95, 0x03, 0x14, 0xfb, 0x86, 0xe4, 0x01, 0x92, 0x25, 0x21]
  {
    hide AddRoundKey;
    AddRoundKeyBytes(
      [0x74, 0x27, 0xfa, 0xe4, 0xd8, 0xa6, 0x95, 0x26, 0x9c, 0xe8, 0x3d, 0x31, 0x5b, 0xe0, 0x39, 0x2b],
      [0x25, 0x41, 0xfe, 0x71, 0x9b, 0xf5, 0x00, 0x25, 0x88, 0x13, 0xbb, 0xd5, 0x5a, 0x72, 0x1c, 0x0a]);
  }

  lemma State12()
    ensures Rounds(KeyExpansion(KEY()), PLAIN(), 12) ==
            [0x51, 0x66, 0x04, 0x95, 0x43, 0x53, 0x95, 0x03, 0x14, 0xfb, 0x86, 0xe4, 0x01, 0x92, 0x25, 0x21]
  {
    hide KEY, PLAIN, KeyExpansion, ExpandedWord, RoundKey, SubBytes, MixColumns, AddRoundKey;
    State11();
    Words12();
    RoundKeyOfWords(KEY(), 12);
    assert RoundKey(KeyExpansion(KEY()), 12) ==
           [0x25, 0x41, 0xfe, 0x71, 0x9b, 0xf5, 0x00, 0x25, 0x88, 0x13, 0xbb, 0xd5, 0x5a, 0x72, 0x1c, 0x0a];
    Substituted12();
    Mixed12();
    Keyed12();
  }

  lemma Substituted13()
    ensures
      SubBytes([0x51, 0x66, 0x04, 0x95, 0x43, 0x53, 0x95, 0x03, 0x14, 0xfb, 0x86, 0xe4, 0x01, 0x92, 0x25, 0x21]) ==
      [0xd1, 0x33, 0xf2, 0x2a, 0x1a, 0xed, 0x2a, 0x7b, 0xfa, 0x0f, 0x44, 0x69, 0x7c, 0x4f, 0x3f, 0xfd]
  {
    hide SubBytes;
    SubBytesBytes([0x51, 0x66, 0x04, 0x95, 0x43, 0x53, 0x95, 0x03, 0x14, 0xfb, 0x86, 0xe4, 0x01, 0x92, 0x25, 0x21]);
  }

  lemma Mixed13()
    ensures
      MixColumns([0xd1, 0xed, 0x44, 0xfd, 0x1a, 0x0f, 0x3f, 0x2a, 0xfa, 0x4f, 0xf2, 0x7b, 0x7c, 0x33, 0x2a, 0x69]) ==
      [0x2c, 0x21, 0xa8, 0x20, 0x30, 0x6f, 0x15, 0x4a, 0xb7, 0x12, 0xc7, 0x5e, 0xee, 0x0d, 0xa0, 0x4f]
  {}

  lemma Keyed13()
    ensures
      AddRoundKey(
        [0x2c, 0x21, 0xa8, 0x20, 0x30, 0x6f, 0x15, 0x4a, 0xb7, 0x12, 0xc7, 0x5e, 0xee, 0x0d, 0xa0, 0x4f],
        [0x4e, 0x5a, 0x66, 0x99, 0xa9, 0xf2, 0x4f, 0xe0, 0x7e, 0x57, 0x2b, 0xaa, 0xcd, 0xf8, 0xcd, 0xea]) ==
      [0x62, 0x7b, 0xce, 0xb9, 0x99, 0x9d, 0x5a, 0xaa, 0xc9, 0x45, 0xec, 0xf4, 0x23, 0xf5, 0x6d, 0xa5]
  {
    hide AddRoundKey;
    AddRoundKeyBytes(
      [0x2c, 0x21, 0xa8, 0x20, 0x30, 0x6f, 0x15, 0x4a, 0xb7, 0x12, 0xc7, 0x5e, 0xee, 0x0d, 0xa0, 0x4f],
      [0x4e, 0x5a, 0x66, 0x99, 0xa9, 0xf2, 0x4f, 0xe0, 0x7e, 0x57, 0x2b, 0xaa, 0xcd, 0xf8, 0xcd, 0xea]);
  }

  lemma State13()
    ensures Rounds(KeyExpansion(KEY()), PLAIN(), 13) ==
            [0x62, 0x7b, 0xce, 0xb9, 0x99, 0x9d, 0x5a, 0xaa, 0xc9, 0x45, 0xec, 0xf4, 0x23, 0xf5, 0x6d, 0xa5]
  {
    hide KEY, PLAIN, KeyExpansion, ExpandedWord, RoundKey, SubBytes, MixColumns, AddRoundKey;
    State12();
    Words13();
    RoundKeyOfWords(KEY(), 13);
    assert RoundKey(KeyExpansion(KEY()), 13) ==
           [0x4e, 0x5a, 0x66, 0x99, 0xa9, 0xf2, 0x4f, 0xe0, 0x7e, 0x57, 0x2b, 0xaa, 0xcd, 0xf8, 0xcd, 0xea];
    Substituted13();
    Mixed13();
    Keyed13();
  }

  lemma Substituted14()
    ensures
      SubBytes([0x62, 0x7b, 0xce, 0xb9, 0x99, 0x9d, 0x5a, 0xaa, 0xc9, 0x45, 0xec, 0xf4, 0x23, 0xf5, 0x6d, 0xa5]) ==
      [0xaa, 0x21, 0x8b, 0x56, 0xee, 0x5e, 0xbe, 0xac, 0xdd, 0x6e, 0xce, 0xbf, 0x26, 0xe6, 0x3c, 0x06]
  {
    hide SubBytes;
    SubBytesBytes([0x62, 0x7b, 0xce, 0xb9, 0x99, 0x9d, 0x5a, 0xaa, 0xc9, 0x45, 0xec, 0xf4, 0x23, 0xf5, 0x6d, 0xa5]);
  }

  lemma Keyed14()
    ensures
      AddRoundKey(
        [0xaa, 0x5e, 0xce, 0x06, 0xee, 0x6e, 0x3c, 0x56, 0xdd, 0xe6, 0x8b, 0xac, 0x26, 0x21, 0xbe, 0xbf],
        [0x24, 0xfc, 0x79, 0xcc, 0xbf, 0x09, 0x79, 0xe9, 0x37, 0x1a, 0xc2, 0x3c, 0x6d, 0x68, 0xde, 0x36]) ==
      [0x8e, 0xa2, 0xb7, 0xca, 0x51, 0x67, 0x45, 0xbf, 0xea, 0xfc, 0x49, 0x90, 0x4b, 0x49, 0x60, 0x89]
  {
    hide AddRoundKey;
    AddRoundKeyBytes(
      [0xaa, 0x5e, 0xce, 0x06, 0xee, 0x6e, 0x3c, 0x56, 0xdd, 0xe6, 0x8b, 0xac, 0x26, 0x21, 0xbe, 0xbf],
      [0x24, 0xfc, 0x79, 0xcc, 0xbf, 0x09, 0x79, 0xe9, 0x37, 0x1a, 0xc2, 0x3c, 0x6d, 0x68, 0xde, 0x36]);
  }

  /** The known answer. */
  lemma KnownAnswer()
    ensures Cipher(KeyExpansion(KEY()), PLAIN()) == ENCRYPTED()
    ensures InvCipher(KeyExpansion(KEY()), ENCRYPTED()) == PLAIN()
  {
    hide KEY, PLAIN, KeyExpansion, ExpandedWord, RoundKey, Rounds, SubBytes, AddRoundKey, InvCipher;
    State13();
    Words14();
    RoundKeyOfWords(KEY(), ROUNDS);
    assert RoundKey(KeyExpansion(KEY()), ROUNDS) ==
           [0x24, 0xfc, 0x79, 0xcc, 0xbf, 0x09, 0x79, 0xe9, 0x37, 0x1a, 0xc2, 0x3c, 0x6d, 0x68, 0xde, 0x36];
    Substituted14();
    Keyed14();
    CiphersInvert(KeyExpansion(KEY()), PLAIN());
  }
}
