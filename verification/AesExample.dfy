/** The example of FIPS 197, appendix C.1: a key of sixteen bytes, its expansion, and every
    round of the cipher. */
module AesExample {
  import opened Aes
  import opened AesCipher
  import opened AesTables
  import opened Bytes

  const KEY: seq<Col> := [Col(0x00, 0x01, 0x02, 0x03), Col(0x04, 0x05, 0x06, 0x07),
    Col(0x08, 0x09, 0x0a, 0x0b), Col(0x0c, 0x0d, 0x0e, 0x0f)]

  // The round keys.
  const K0 := State(Col(0x00, 0x01, 0x02, 0x03), Col(0x04, 0x05, 0x06, 0x07), Col(0x08, 0x09, 0x0a, 0x0b), Col(0x0c, 0x0d, 0x0e, 0x0f))
  const K1 := State(Col(0xd6, 0xaa, 0x74, 0xfd), Col(0xd2, 0xaf, 0x72, 0xfa), Col(0xda, 0xa6, 0x78, 0xf1), Col(0xd6, 0xab, 0x76, 0xfe))
  const K2 := State(Col(0xb6, 0x92, 0xcf, 0x0b), Col(0x64, 0x3d, 0xbd, 0xf1), Col(0xbe, 0x9b, 0xc5, 0x00), Col(0x68, 0x30, 0xb3, 0xfe))
  const K3 := State(Col(0xb6, 0xff, 0x74, 0x4e), Col(0xd2, 0xc2, 0xc9, 0xbf), Col(0x6c, 0x59, 0x0c, 0xbf), Col(0x04, 0x69, 0xbf, 0x41))
  const K4 := State(Col(0x47, 0xf7, 0xf7, 0xbc), Col(0x95, 0x35, 0x3e, 0x03), Col(0xf9, 0x6c, 0x32, 0xbc), Col(0xfd, 0x05, 0x8d, 0xfd))
  const K5 := State(Col(0x3c, 0xaa, 0xa3, 0xe8), Col(0xa9, 0x9f, 0x9d, 0xeb), Col(0x50, 0xf3, 0xaf, 0x57), Col(0xad, 0xf6, 0x22, 0xaa))
  const K6 := State(Col(0x5e, 0x39, 0x0f, 0x7d), Col(0xf7, 0xa6, 0x92, 0x96), Col(0xa7, 0x55, 0x3d, 0xc1), Col(0x0a, 0xa3, 0x1f, 0x6b))
  const K7 := State(Col(0x14, 0xf9, 0x70, 0x1a), Col(0xe3, 0x5f, 0xe2, 0x8c), Col(0x44, 0x0a, 0xdf, 0x4d), Col(0x4e, 0xa9, 0xc0, 0x26))
  const K8 := State(Col(0x47, 0x43, 0x87, 0x35), Col(0xa4, 0x1c, 0x65, 0xb9), Col(0xe0, 0x16, 0xba, 0xf4), Col(0xae, 0xbf, 0x7a, 0xd2))
  const K9 := State(Col(0x54, 0x99, 0x32, 0xd1), Col(0xf0, 0x85, 0x57, 0x68), Col(0x10, 0x93, 0xed, 0x9c), Col(0xbe, 0x2c, 0x97, 0x4e))
  const K10 := State(Col(0x13, 0x11, 0x1d, 0x7f), Col(0xe3, 0x94, 0x4a, 0x17), Col(0xf3, 0x07, 0xa7, 0x8b), Col(0x4d, 0x2b, 0x30, 0xc5))

  // The block before the first round and behind each round.
  const X0 := State(Col(0x00, 0x10, 0x20, 0x30), Col(0x40, 0x50, 0x60, 0x70), Col(0x80, 0x90, 0xa0, 0xb0), Col(0xc0, 0xd0, 0xe0, 0xf0))
  const X1 := State(Col(0x89, 0xd8, 0x10, 0xe8), Col(0x85, 0x5a, 0xce, 0x68), Col(0x2d, 0x18, 0x43, 0xd8), Col(0xcb, 0x12, 0x8f, 0xe4))
  const X2 := State(Col(0x49, 0x15, 0x59, 0x8f), Col(0x55, 0xe5, 0xd7, 0xa0), Col(0xda, 0xca, 0x94, 0xfa), Col(0x1f, 0x0a, 0x63, 0xf7))
  const X3 := State(Col(0xfa, 0x63, 0x6a, 0x28), Col(0x25, 0xb3, 0x39, 0xc9), Col(0x40, 0x66, 0x8a, 0x31), Col(0x57, 0x24, 0x4d, 0x17))
  const X4 := State(Col(0x24, 0x72, 0x40, 0x23), Col(0x69, 0x66, 0xb3, 0xfa), Col(0x6e, 0xd2, 0x75, 0x32), Col(0x88, 0x42, 0x5b, 0x6c))
  const X5 := State(Col(0xc8, 0x16, 0x77, 0xbc), Col(0x9b, 0x7a, 0xc9, 0x3b), Col(0x25, 0x02, 0x79, 0x92), Col(0xb0, 0x26, 0x19, 0x96))
  const X6 := State(Col(0xc6, 0x2f, 0xe1, 0x09), Col(0xf7, 0x5e, 0xed, 0xc3), Col(0xcc, 0x79, 0x39, 0x5d), Col(0x84, 0xf9, 0xcf, 0x5d))
  const X7 := State(Col(0xd1, 0x87, 0x6c, 0x0f), Col(0x79, 0xc4, 0x30, 0x0a), Col(0xb4, 0x55, 0x94, 0xad), Col(0xd6, 0x6f, 0xf4, 0x1f))
  const X8 := State(Col(0xfd, 0xe3, 0xba, 0xd2), Col(0x05, 0xe5, 0xd0, 0xd7), Col(0x35, 0x47, 0x96, 0x4e), Col(0xf1, 0xfe, 0x37, 0xf1))
  const X9 := State(Col(0xbd, 0x6e, 0x7c, 0x3d), Col(0xf2, 0xb5, 0x77, 0x9e), Col(0x0b, 0x61, 0x21, 0x6e), Col(0x8b, 0x10, 0xb6, 0x89))
  const X10 := State(Col(0x69, 0xc4, 0xe0, 0xd8), Col(0x6a, 0x7b, 0x04, 0x30), Col(0xd8, 0xcd, 0xb7, 0x80), Col(0x70, 0xb4, 0xc5, 0x5a))

  // The block of each round, substituted and shifted.
  const Y1 := State(Col(0x63, 0x53, 0xe0, 0x8c), Col(0x09, 0x60, 0xe1, 0x04), Col(0xcd, 0x70, 0xb7, 0x51), Col(0xba, 0xca, 0xd0, 0xe7))
  const Y2 := State(Col(0xa7, 0xbe, 0x1a, 0x69), Col(0x97, 0xad, 0x73, 0x9b), Col(0xd8, 0xc9, 0xca, 0x45), Col(0x1f, 0x61, 0x8b, 0x61))
  const Y3 := State(Col(0x3b, 0xd9, 0x22, 0x68), Col(0xfc, 0x74, 0xfb, 0x73), Col(0x57, 0x67, 0xcb, 0xe0), Col(0xc0, 0x59, 0x0e, 0x2d))
  const Y4 := State(Col(0x2d, 0x6d, 0x7e, 0xf0), Col(0x3f, 0x33, 0xe3, 0x34), Col(0x09, 0x36, 0x02, 0xdd), Col(0x5b, 0xfb, 0x12, 0xc7))
  const Y5 := State(Col(0x36, 0x33, 0x9d, 0x50), Col(0xf9, 0xb5, 0x39, 0x26), Col(0x9f, 0x2c, 0x09, 0x2d), Col(0xc4, 0x40, 0x6d, 0x23))
  const Y6 := State(Col(0xe8, 0xda, 0xb6, 0x90), Col(0x14, 0x77, 0xd4, 0x65), Col(0x3f, 0xf7, 0xf5, 0xe2), Col(0xe7, 0x47, 0xdd, 0x4f))
  const Y7 := State(Col(0xb4, 0x58, 0x12, 0x4c), Col(0x68, 0xb6, 0x8a, 0x01), Col(0x4b, 0x99, 0xf8, 0x2e), Col(0x5f, 0x15, 0x55, 0x4c))
  const Y8 := State(Col(0x3e, 0x1c, 0x22, 0xc0), Col(0xb6, 0xfc, 0xbf, 0x76), Col(0x8d, 0xa8, 0x50, 0x67), Col(0xf6, 0x17, 0x04, 0x95))
  const Y9 := State(Col(0x54, 0xd9, 0x90, 0xa1), Col(0x6b, 0xa0, 0x9a, 0xb5), Col(0x96, 0xbb, 0xf4, 0x0e), Col(0xa1, 0x11, 0x70, 0x2f))
  const Y10 := State(Col(0x7a, 0xd5, 0xfd, 0xa7), Col(0x89, 0xef, 0x4e, 0x27), Col(0x2b, 0xca, 0x10, 0x0b), Col(0x3d, 0x9f, 0xf5, 0x9f))

  // ---- the key expansion ----

  ghost predicate Words(i: nat, k: State) {
    KeyWord(KEY, i) == k.c0 && KeyWord(KEY, i + 1) == k.c1 && KeyWord(KEY, i + 2) == k.c2 && KeyWord(KEY, i + 3) == k.c3
  }

  lemma NextWords(i: nat, k: State, s: Col, c: Byte, l: State)
    requires i % 4 == 0 && Words(i, k) && SubWord(RotWord(k.c3)) == s && Rcon(i / 4) == c
    requires l.c0 == Plus(k.c0, Plus(s, Col(c, 0, 0, 0))) && l.c1 == Plus(k.c1, l.c0)
    requires l.c2 == Plus(k.c2, l.c1) && l.c3 == Plus(k.c3, l.c2)
    ensures Words(i + 4, l)
  {
    hide Plus, SubWord, RotWord, Rcon;
    assert KeyWord(KEY, i + 4) == l.c0;
    assert KeyWord(KEY, i + 5) == l.c1;
    assert KeyWord(KEY, i + 6) == l.c2;
    assert KeyWord(KEY, i + 7) == l.c3;
  }

  lemma FirstWords()
    ensures Words(0, K0)
  {
  }

  lemma Key1()
    ensures Words(4, K1)
  {
    hide Words;
    FirstWords();
    RconTable(0);
    assert SubWord(RotWord(K0.c3)) == Col(0xd7, 0xab, 0x76, 0xfe);
    NextWords(0, K0, Col(0xd7, 0xab, 0x76, 0xfe), 0x01, K1);
  }

  lemma Key2()
    ensures Words(8, K2)
  {
    hide Words;
    Key1();
    RconTable(1);
    assert SubWord(RotWord(K1.c3)) == Col(0x62, 0x38, 0xbb, 0xf6);
    NextWords(4, K1, Col(0x62, 0x38, 0xbb, 0xf6), 0x02, K2);
  }

  lemma Key3()
    ensures Words(12, K3)
  {
    hide Words;
    Key2();
    RconTable(2);
    assert SubWord(RotWord(K2.c3)) == Col(0x04, 0x6d, 0xbb, 0x45);
    NextWords(8, K2, Col(0x04, 0x6d, 0xbb, 0x45), 0x04, K3);
  }

  lemma Key4()
    ensures Words(16, K4)
  {
    hide Words;
    Key3();
    RconTable(3);
    assert SubWord(RotWord(K3.c3)) == Col(0xf9, 0x08, 0x83, 0xf2);
    NextWords(12, K3, Col(0xf9, 0x08, 0x83, 0xf2), 0x08, K4);
  }

  lemma Key5()
    ensures Words(20, K5)
  {
    hide Words;
    Key4();
    RconTable(4);
    assert SubWord(RotWord(K4.c3)) == Col(0x6b, 0x5d, 0x54, 0x54);
    NextWords(16, K4, Col(0x6b, 0x5d, 0x54, 0x54), 0x10, K5);
  }

  lemma Key6()
    ensures Words(24, K6)
  {
    hide Words;
    Key5();
    RconTable(5);
    assert SubWord(RotWord(K5.c3)) == Col(0x42, 0x93, 0xac, 0x95);
    NextWords(20, K5, Col(0x42, 0x93, 0xac, 0x95), 0x20, K6);
  }

  lemma Key7()
    ensures Words(28, K7)
  {
    hide Words;
    Key6();
    RconTable(6);
    assert SubWord(RotWord(K6.c3)) == Col(0x0a, 0xc0, 0x7f, 0x67);
    NextWords(24, K6, Col(0x0a, 0xc0, 0x7f, 0x67), 0x40, K7);
  }

  lemma Key8()
    ensures Words(32, K8)
  {
    hide Words;
    Key7();
    RconTable(7);
    assert SubWord(RotWord(K7.c3)) == Col(0xd3, 0xba, 0xf7, 0x2f);
    NextWords(28, K7, Col(0xd3, 0xba, 0xf7, 0x2f), 0x80, K8);
  }

  lemma Key9()
    ensures Words(36, K9)
  {
    hide Words;
    Key8();
    RconTable(8);
    assert SubWord(RotWord(K8.c3)) == Col(0x08, 0xda, 0xb5, 0xe4);
    NextWords(32, K8, Col(0x08, 0xda, 0xb5, 0xe4), 0x1b, K9);
  }

  lemma Key10()
    ensures Words(40, K10)
  {
    hide Words;
    Key9();
    RconTable(9);
    assert SubWord(RotWord(K9.c3)) == Col(0x71, 0x88, 0x2f, 0xae);
    NextWords(36, K9, Col(0x71, 0x88, 0x2f, 0xae), 0x36, K10);
  }

  // ---- the rounds ----

  const BLOCK := State(Col(0x00, 0x11, 0x22, 0x33), Col(0x44, 0x55, 0x66, 0x77), Col(0x88, 0x99, 0xaa, 0xbb), Col(0xcc, 0xdd, 0xee, 0xff))

  lemma Sub1_0() ensures Sub(0x00, 0x50, 0xa0, 0xf0) == Col(0x63, 0x53, 0xe0, 0x8c) { }
  lemma Sub1_1() ensures Sub(0x40, 0x90, 0xe0, 0x30) == Col(0x09, 0x60, 0xe1, 0x04) { }
  lemma Sub1_2() ensures Sub(0x80, 0xd0, 0x20, 0x70) == Col(0xcd, 0x70, 0xb7, 0x51) { }
  lemma Sub1_3() ensures Sub(0xc0, 0x10, 0x60, 0xb0) == Col(0xba, 0xca, 0xd0, 0xe7) { }

  lemma Shift1()
    ensures SubShift(X0) == Y1
  {
    hide Sub;
    Sub1_0(); Sub1_1(); Sub1_2(); Sub1_3();
  }

  lemma Sub2_0() ensures Sub(0x89, 0x5a, 0x43, 0xe4) == Col(0xa7, 0xbe, 0x1a, 0x69) { }
  lemma Sub2_1() ensures Sub(0x85, 0x18, 0x8f, 0xe8) == Col(0x97, 0xad, 0x73, 0x9b) { }
  lemma Sub2_2() ensures Sub(0x2d, 0x12, 0x10, 0x68) == Col(0xd8, 0xc9, 0xca, 0x45) { }
  lemma Sub2_3() ensures Sub(0xcb, 0xd8, 0xce, 0xd8) == Col(0x1f, 0x61, 0x8b, 0x61) { }

  lemma Shift2()
    ensures SubShift(X1) == Y2
  {
    hide Sub;
    Sub2_0(); Sub2_1(); Sub2_2(); Sub2_3();
  }

  lemma Sub3_0() ensures Sub(0x49, 0xe5, 0x94, 0xf7) == Col(0x3b, 0xd9, 0x22, 0x68) { }
  lemma Sub3_1() ensures Sub(0x55, 0xca, 0x63, 0x8f) == Col(0xfc, 0x74, 0xfb, 0x73) { }
  lemma Sub3_2() ensures Sub(0xda, 0x0a, 0x59, 0xa0) == Col(0x57, 0x67, 0xcb, 0xe0) { }
  lemma Sub3_3() ensures Sub(0x1f, 0x15, 0xd7, 0xfa) == Col(0xc0, 0x59, 0x0e, 0x2d) { }

  lemma Shift3()
    ensures SubShift(X2) == Y3
  {
    hide Sub;
    Sub3_0(); Sub3_1(); Sub3_2(); Sub3_3();
  }

  lemma Sub4_0() ensures Sub(0xfa, 0xb3, 0x8a, 0x17) == Col(0x2d, 0x6d, 0x7e, 0xf0) { }
  lemma Sub4_1() ensures Sub(0x25, 0x66, 0x4d, 0x28) == Col(0x3f, 0x33, 0xe3, 0x34) { }
  lemma Sub4_2() ensures Sub(0x40, 0x24, 0x6a, 0xc9) == Col(0x09, 0x36, 0x02, 0xdd) { }
  lemma Sub4_3() ensures Sub(0x57, 0x63, 0x39, 0x31) == Col(0x5b, 0xfb, 0x12, 0xc7) { }

  lemma Shift4()
    ensures SubShift(X3) == Y4
  {
    hide Sub;
    Sub4_0(); Sub4_1(); Sub4_2(); Sub4_3();
  }

  lemma Sub5_0() ensures Sub(0x24, 0x66, 0x75, 0x6c) == Col(0x36, 0x33, 0x9d, 0x50) { }
  lemma Sub5_1() ensures Sub(0x69, 0xd2, 0x5b, 0x23) == Col(0xf9, 0xb5, 0x39, 0x26) { }
  lemma Sub5_2() ensures Sub(0x6e, 0x42, 0x40, 0xfa) == Col(0x9f, 0x2c, 0x09, 0x2d) { }
  lemma Sub5_3() ensures Sub(0x88, 0x72, 0xb3, 0x32) == Col(0xc4, 0x40, 0x6d, 0x23) { }

  lemma Shift5()
    ensures SubShift(X4) == Y5
  {
    hide Sub;
    Sub5_0(); Sub5_1(); Sub5_2(); Sub5_3();
  }

  lemma Sub6_0() ensures Sub(0xc8, 0x7a, 0x79, 0x96) == Col(0xe8, 0xda, 0xb6, 0x90) { }
  lemma Sub6_1() ensures Sub(0x9b, 0x02, 0x19, 0xbc) == Col(0x14, 0x77, 0xd4, 0x65) { }
  lemma Sub6_2() ensures Sub(0x25, 0x26, 0x77, 0x3b) == Col(0x3f, 0xf7, 0xf5, 0xe2) { }
  lemma Sub6_3() ensures Sub(0xb0, 0x16, 0xc9, 0x92) == Col(0xe7, 0x47, 0xdd, 0x4f) { }

  lemma Shift6()
    ensures SubShift(X5) == Y6
  {
    hide Sub;
    Sub6_0(); Sub6_1(); Sub6_2(); Sub6_3();
  }

  lemma Sub7_0() ensures Sub(0xc6, 0x5e, 0x39, 0x5d) == Col(0xb4, 0x58, 0x12, 0x4c) { }
  lemma Sub7_1() ensures Sub(0xf7, 0x79, 0xcf, 0x09) == Col(0x68, 0xb6, 0x8a, 0x01) { }
  lemma Sub7_2() ensures Sub(0xcc, 0xf9, 0xe1, 0xc3) == Col(0x4b, 0x99, 0xf8, 0x2e) { }
  lemma Sub7_3() ensures Sub(0x84, 0x2f, 0xed, 0x5d) == Col(0x5f, 0x15, 0x55, 0x4c) { }

  lemma Shift7()
    ensures SubShift(X6) == Y7
  {
    hide Sub;
    Sub7_0(); Sub7_1(); Sub7_2(); Sub7_3();
  }

  lemma Sub8_0() ensures Sub(0xd1, 0xc4, 0x94, 0x1f) == Col(0x3e, 0x1c, 0x22, 0xc0) { }
  lemma Sub8_1() ensures Sub(0x79, 0x55, 0xf4, 0x0f) == Col(0xb6, 0xfc, 0xbf, 0x76) { }
  lemma Sub8_2() ensures Sub(0xb4, 0x6f, 0x6c, 0x0a) == Col(0x8d, 0xa8, 0x50, 0x67) { }
  lemma Sub8_3() ensures Sub(0xd6, 0x87, 0x30, 0xad) == Col(0xf6, 0x17, 0x04, 0x95) { }

  lemma Shift8()
    ensures SubShift(X7) == Y8
  {
    hide Sub;
    Sub8_0(); Sub8_1(); Sub8_2(); Sub8_3();
  }

  lemma Sub9_0() ensures Sub(0xfd, 0xe5, 0x96, 0xf1) == Col(0x54, 0xd9, 0x90, 0xa1) { }
  lemma Sub9_1() ensures Sub(0x05, 0x47, 0x37, 0xd2) == Col(0x6b, 0xa0, 0x9a, 0xb5) { }
  lemma Sub9_2() ensures Sub(0x35, 0xfe, 0xba, 0xd7) == Col(0x96, 0xbb, 0xf4, 0x0e) { }
  lemma Sub9_3() ensures Sub(0xf1, 0xe3, 0xd0, 0x4e) == Col(0xa1, 0x11, 0x70, 0x2f) { }

  lemma Shift9()
    ensures SubShift(X8) == Y9
  {
    hide Sub;
    Sub9_0(); Sub9_1(); Sub9_2(); Sub9_3();
  }

  lemma Sub10_0() ensures Sub(0xbd, 0xb5, 0x21, 0x89) == Col(0x7a, 0xd5, 0xfd, 0xa7) { }
  lemma Sub10_1() ensures Sub(0xf2, 0x61, 0xb6, 0x3d) == Col(0x89, 0xef, 0x4e, 0x27) { }
  lemma Sub10_2() ensures Sub(0x0b, 0x10, 0x7c, 0x9e) == Col(0x2b, 0xca, 0x10, 0x0b) { }
  lemma Sub10_3() ensures Sub(0x8b, 0x6e, 0x77, 0x6e) == Col(0x3d, 0x9f, 0xf5, 0x9f) { }

  lemma Shift10()
    ensures SubShift(X9) == Y10
  {
    hide Sub;
    Sub10_0(); Sub10_1(); Sub10_2(); Sub10_3();
  }

  lemma Mix1() ensures AddKey(MixAll(Y1), K1) == X1 { }
  lemma Mix2() ensures AddKey(MixAll(Y2), K2) == X2 { }
  lemma Mix3() ensures AddKey(MixAll(Y3), K3) == X3 { }
  lemma Mix4() ensures AddKey(MixAll(Y4), K4) == X4 { }
  lemma Mix5() ensures AddKey(MixAll(Y5), K5) == X5 { }
  lemma Mix6() ensures AddKey(MixAll(Y6), K6) == X6 { }
  lemma Mix7() ensures AddKey(MixAll(Y7), K7) == X7 { }
  lemma Mix8() ensures AddKey(MixAll(Y8), K8) == X8 { }
  lemma Mix9() ensures AddKey(MixAll(Y9), K9) == X9 { }

  lemma RoundKeys(i: nat, k: State)
    requires i <= 10 && Words(4 * i, k)
    ensures KeyAt(Schedule(KEY), i) == k
  {
    hide KeyWord;
    var w := Schedule(KEY);
    assert w[4 * i] == KeyWord(KEY, 4 * i) && w[4 * i + 1] == KeyWord(KEY, 4 * i + 1);
    assert w[4 * i + 2] == KeyWord(KEY, 4 * i + 2) && w[4 * i + 3] == KeyWord(KEY, 4 * i + 3);
  }

  lemma NextRound(n: nat, x: State, y: State, k: State, z: State)
    requires 0 < n <= 10 && Rounds(Schedule(KEY), BLOCK, n - 1) == x && SubShift(x) == y && Words(4 * n, k)
    requires AddKey(MixAll(y), k) == z
    ensures Rounds(Schedule(KEY), BLOCK, n) == z
  {
    hide AddKey, MixAll, SubShift, Words, KeyWord;
    RoundKeys(n, k);
  }

  /** The first block of the example under the key of the example. */
  lemma Example()
    ensures Encrypted(KEY, BLOCK) == X10
  {
    hide Words, Rounds, SubShift, MixAll, AddKey, KeyWord;
    FirstRound();
    Key1(); Shift1(); Mix1();
    NextRound(1, X0, Y1, K1, X1);
    Key2(); Shift2(); Mix2();
    NextRound(2, X1, Y2, K2, X2);
    Key3(); Shift3(); Mix3();
    NextRound(3, X2, Y3, K3, X3);
    Key4(); Shift4(); Mix4();
    NextRound(4, X3, Y4, K4, X4);
    Key5(); Shift5(); Mix5();
    NextRound(5, X4, Y5, K5, X5);
    Key6(); Shift6(); Mix6();
    NextRound(6, X5, Y6, K6, X6);
    Key7(); Shift7(); Mix7();
    NextRound(7, X6, Y7, K7, X7);
    Key8(); Shift8(); Mix8();
    NextRound(8, X7, Y8, K8, X8);
    Key9(); Shift9(); Mix9();
    NextRound(9, X8, Y9, K9, X9);
    Key10();
    Shift10();
    RoundKeys(10, K10);
    LastMix();
  }

  lemma FirstRound()
    ensures Rounds(Schedule(KEY), BLOCK, 0) == X0
  {
    FirstWords();
    RoundKeys(0, K0);
    hide KeyWord, Words, KeyAt;
  }

  lemma LastMix()
    ensures AddKey(Y10, K10) == X10
  {
  }
}
