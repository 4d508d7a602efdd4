// Section C.3 of FIPS 197: the published vector for keys of 256 bits, step by step.

module VectorC3 {
  import opened Gf256
  import opened Fips197
  import opened Vectors

  /** The key and the ciphertext, as bytes. */
  const KEY: seq<bv8> := [
    0x00, 0x01, 0x02, 0x03, 0x04, 0x05, 0x06, 0x07, 0x08, 0x09, 0x0a, 0x0b, 0x0c, 0x0d, 0x0e, 0x0f,
    0x10, 0x11, 0x12, 0x13, 0x14, 0x15, 0x16, 0x17, 0x18, 0x19, 0x1a, 0x1b, 0x1c, 0x1d, 0x1e, 0x1f]
  const CIPHERTEXT: seq<bv8> := [
    0x8e, 0xa2, 0xb7, 0xca, 0x51, 0x67, 0x45, 0xbf, 0xea, 0xfc, 0x49, 0x90, 0x4b, 0x49, 0x60, 0x89]

  lemma KeyIs()
    ensures ToState(KEY) == C3Keys(0) + C3Keys(1)
  {
  }

  lemma CiphertextIs()
    ensures ToState(CIPHERTEXT) == C3States(14)
  {
  }

  /** The round keys. */
  function C3Keys(r: nat): (s: State)
    ensures |s| == 4
  {
    match r
    case 0 =>
      [Word(0x00, 0x01, 0x02, 0x03), Word(0x04, 0x05, 0x06, 0x07),
       Word(0x08, 0x09, 0x0a, 0x0b), Word(0x0c, 0x0d, 0x0e, 0x0f)]
    case 1 =>
      [Word(0x10, 0x11, 0x12, 0x13), Word(0x14, 0x15, 0x16, 0x17),
       Word(0x18, 0x19, 0x1a, 0x1b), Word(0x1c, 0x1d, 0x1e, 0x1f)]
    case 2 =>
      [Word(0xa5, 0x73, 0xc2, 0x9f), Word(0xa1, 0x76, 0xc4, 0x98),
       Word(0xa9, 0x7f, 0xce, 0x93), Word(0xa5, 0x72, 0xc0, 0x9c)]
    case 3 =>
      [Word(0x16, 0x51, 0xa8, 0xcd), Word(0x02, 0x44, 0xbe, 0xda),
       Word(0x1a, 0x5d, 0xa4, 0xc1), Word(0x06, 0x40, 0xba, 0xde)]
    case 4 =>
      [Word(0xae, 0x87, 0xdf, 0xf0), Word(0x0f, 0xf1, 0x1b, 0x68),
       Word(0xa6, 0x8e, 0xd5, 0xfb), Word(0x03, 0xfc, 0x15, 0x67)]
    case 5 =>
      [Word(0x6d, 0xe1, 0xf1, 0x48), Word(0x6f, 0xa5, 0x4f, 0x92),
       Word(0x75, 0xf8, 0xeb, 0x53), Word(0x73, 0xb8, 0x51, 0x8d)]
    case 6 =>
      [Word(0xc6, 0x56, 0x82, 0x7f), Word(0xc9, 0xa7, 0x99, 0x17),
       Word(0x6f, 0x29, 0x4c, 0xec), Word(0x6c, 0xd5, 0x59, 0x8b)]
    case 7 =>
      [Word(0x3d, 0xe2, 0x3a, 0x75), Word(0x52, 0x47, 0x75, 0xe7),
       Word(0x27, 0xbf, 0x9e, 0xb4), Word(0x54, 0x07, 0xcf, 0x39)]
    case 8 =>
      [Word(0x0b, 0xdc, 0x90, 0x5f), Word(0xc2, 0x7b, 0x09, 0x48),
       Word(0xad, 0x52, 0x45, 0xa4), Word(0xc1, 0x87, 0x1c, 0x2f)]
    case 9 =>
      [Word(0x45, 0xf5, 0xa6, 0x60), Word(0x17, 0xb2, 0xd3, 0x87),
       Word(0x30, 0x0d, 0x4d, 0x33), Word(0x64, 0x0a, 0x82, 0x0a)]
    case 10 =>
      [Word(0x7c, 0xcf, 0xf7, 0x1c), Word(0xbe, 0xb4, 0xfe, 0x54),
       Word(0x13, 0xe6, 0xbb, 0xf0), Word(0xd2, 0x61, 0xa7, 0xdf)]
    case 11 =>
      [Word(0xf0, 0x1a, 0xfa, 0xfe), Word(0xe7, 0xa8, 0x29, 0x79),
       Word(0xd7, 0xa5, 0x64, 0x4a), Word(0xb3, 0xaf, 0xe6, 0x40)]
    case 12 =>
      [Word(0x25, 0x41, 0xfe, 0x71), Word(0x9b, 0xf5, 0x00, 0x25),
       Word(0x88, 0x13, 0xbb, 0xd5), Word(0x5a, 0x72, 0x1c, 0x0a)]
    case 13 =>
      [Word(0x4e, 0x5a, 0x66, 0x99), Word(0xa9, 0xf2, 0x4f, 0xe0),
       Word(0x7e, 0x57, 0x2b, 0xaa), Word(0xcd, 0xf8, 0xcd, 0xea)]
    case _ =>
      [Word(0x24, 0xfc, 0x79, 0xcc), Word(0xbf, 0x09, 0x79, 0xe9),
       Word(0x37, 0x1a, 0xc2, 0x3c), Word(0x6d, 0x68, 0xde, 0x36)]
  }

  /** The state at the start of the first round and after each round; the last is the ciphertext. */
  function C3States(r: nat): (s: State)
    ensures |s| == 4
  {
    match r
    case 0 =>
      [Word(0x00, 0x10, 0x20, 0x30), Word(0x40, 0x50, 0x60, 0x70),
       Word(0x80, 0x90, 0xa0, 0xb0), Word(0xc0, 0xd0, 0xe0, 0xf0)]
    case 1 =>
      [Word(0x4f, 0x63, 0x76, 0x06), Word(0x43, 0xe0, 0xaa, 0x85),
       Word(0xef, 0xa7, 0x21, 0x32), Word(0x01, 0xa4, 0xe7, 0x05)]
    case 2 =>
      [Word(0x18, 0x59, 0xfb, 0xc2), Word(0x8a, 0x1c, 0x00, 0xa0),
       Word(0x78, 0xed, 0x8a, 0xad), Word(0xc4, 0x2f, 0x61, 0x09)]
    case 3 =>
      [Word(0x97, 0x5c, 0x66, 0xc1), Word(0xcb, 0x9f, 0x3f, 0xa8),
       Word(0xa9, 0x3a, 0x28, 0xdf), Word(0x8e, 0xe1, 0x0f, 0x63)]
    case 4 =>
      [Word(0x1c, 0x05, 0xf2, 0x71), Word(0xa4, 0x17, 0xe0, 0x4f),
       Word(0xf9, 0x21, 0xc5, 0xc1), Word(0x04, 0x70, 0x15, 0x54)]
    case 5 =>
      [Word(0xc3, 0x57, 0xaa, 0xe1), Word(0x1b, 0x45, 0xb7, 0xb0),
       Word(0xa2, 0xc7, 0xbd, 0x28), Word(0xa8, 0xdc, 0x99, 0xfa)]
    case 6 =>
      [Word(0x7f, 0x07, 0x41, 0x43), Word(0xcb, 0x4e, 0x24, 0x3e),
       Word(0xc1, 0x0c, 0x81, 0x5d), Word(0x83, 0x75, 0xd5, 0x4c)]
    case 7 =>
      [Word(0xd6, 0x53, 0xa4, 0x69), Word(0x6c, 0xa0, 0xbc, 0x0f),
       Word(0x5a, 0xca, 0xab, 0x5d), Word(0xb9, 0x6c, 0x5e, 0x7d)]
    case 8 =>
      [Word(0x5a, 0xa8, 0x58, 0x39), Word(0x5f, 0xd2, 0x8d, 0x7d),
       Word(0x05, 0xe1, 0xa3, 0x88), Word(0x68, 0xf3, 0xb9, 0xc5)]
    case 9 =>
      [Word(0x4a, 0x82, 0x48, 0x51), Word(0xc5, 0x7e, 0x7e, 0x47),
       Word(0x64, 0x3d, 0xe5, 0x0c), Word(0x2a, 0xf3, 0xe8, 0xc9)]
    case 10 =>
      [Word(0xc1, 0x49, 0x07, 0xf6), Word(0xca, 0x3b, 0x3a, 0xa0),
       Word(0x70, 0xe9, 0xaa, 0x31), Word(0x3b, 0x52, 0xb5, 0xec)]
    case 11 =>
      [Word(0x5f, 0x9c, 0x6a, 0xbf), Word(0xba, 0xc6, 0x34, 0xaa),
       Word(0x50, 0x40, 0x9f, 0xa7), Word(0x66, 0x67, 0x76, 0x53)]
    case 12 =>
      [Word(0x51, 0x66, 0x04, 0x95), Word(0x43, 0x53, 0x95, 0x03),
       Word(0x14, 0xfb, 0x86, 0xe4), Word(0x01, 0x92, 0x25, 0x21)]
    case 13 =>
      [Word(0x62, 0x7b, 0xce, 0xb9), Word(0x99, 0x9d, 0x5a, 0xaa),
       Word(0xc9, 0x45, 0xec, 0xf4), Word(0x23, 0xf5, 0x6d, 0xa5)]
    case _ =>
      [Word(0x8e, 0xa2, 0xb7, 0xca), Word(0x51, 0x67, 0x45, 0xbf),
       Word(0xea, 0xfc, 0x49, 0x90), Word(0x4b, 0x49, 0x60, 0x89)]
  }

  lemma C3Added2()
    ensures Evolved(8, 8, Word(0x1c, 0x1d, 0x1e, 0x1f)) == Word(0xa5, 0x72, 0xc0, 0x9c)
  {
    assert SubWord(Word(0x1d, 0x1e, 0x1f, 0x1c)) == Word(0xa4, 0x72, 0xc0, 0x9c);
    Constant1();
    hide SubWord, Rcon;
  }

  lemma C3Key2()
    ensures Chain(C3Keys(0), Evolved(8, 8, C3Keys(1)[3])) == C3Keys(2)
  {
    hide Evolved;
    C3Added2();
  }

  lemma C3Added3()
    ensures Evolved(8, 12, Word(0xa5, 0x72, 0xc0, 0x9c)) == Word(0x06, 0x40, 0xba, 0xde)
  {
    assert SubWord(Word(0xa5, 0x72, 0xc0, 0x9c)) == Word(0x06, 0x40, 0xba, 0xde);
    hide SubWord, Rcon;
  }

  lemma C3Key3()
    ensures Chain(C3Keys(1), Evolved(8, 12, C3Keys(2)[3])) == C3Keys(3)
  {
    hide Evolved;
    C3Added3();
  }

  lemma C3Added4()
    ensures Evolved(8, 16, Word(0x06, 0x40, 0xba, 0xde)) == Word(0x0b, 0xf4, 0x1d, 0x6f)
  {
    assert SubWord(Word(0x40, 0xba, 0xde, 0x06)) == Word(0x09, 0xf4, 0x1d, 0x6f);
    Constant2();
    hide SubWord, Rcon;
  }

  lemma C3Key4()
    ensures Chain(C3Keys(2), Evolved(8, 16, C3Keys(3)[3])) == C3Keys(4)
  {
    hide Evolved;
    C3Added4();
  }

  lemma C3Added5()
    ensures Evolved(8, 20, Word(0x03, 0xfc, 0x15, 0x67)) == Word(0x7b, 0xb0, 0x59, 0x85)
  {
    assert SubWord(Word(0x03, 0xfc, 0x15, 0x67)) == Word(0x7b, 0xb0, 0x59, 0x85);
    hide SubWord, Rcon;
  }

  lemma C3Key5()
    ensures Chain(C3Keys(3), Evolved(8, 20, C3Keys(4)[3])) == C3Keys(5)
  {
    hide Evolved;
    C3Added5();
  }

  lemma C3Added6()
    ensures Evolved(8, 24, Word(0x73, 0xb8, 0x51, 0x8d)) == Word(0x68, 0xd1, 0x5d, 0x8f)
  {
    assert SubWord(Word(0xb8, 0x51, 0x8d, 0x73)) == Word(0x6c, 0xd1, 0x5d, 0x8f);
    Constant3();
    hide SubWord, Rcon;
  }

  lemma C3Key6()
    ensures Chain(C3Keys(4), Evolved(8, 24, C3Keys(5)[3])) == C3Keys(6)
  {
    hide Evolved;
    C3Added6();
  }

  lemma C3Added7()
    ensures Evolved(8, 28, Word(0x6c, 0xd5, 0x59, 0x8b)) == Word(0x50, 0x03, 0xcb, 0x3d)
  {
    assert SubWord(Word(0x6c, 0xd5, 0x59, 0x8b)) == Word(0x50, 0x03, 0xcb, 0x3d);
    hide SubWord, Rcon;
  }

  lemma C3Key7()
    ensures Chain(C3Keys(5), Evolved(8, 28, C3Keys(6)[3])) == C3Keys(7)
  {
    hide Evolved;
    C3Added7();
  }

  lemma C3Added8()
    ensures Evolved(8, 32, Word(0x54, 0x07, 0xcf, 0x39)) == Word(0xcd, 0x8a, 0x12, 0x20)
  {
    assert SubWord(Word(0x07, 0xcf, 0x39, 0x54)) == Word(0xc5, 0x8a, 0x12, 0x20);
    Constant4();
    hide SubWord, Rcon;
  }

  lemma C3Key8()
    ensures Chain(C3Keys(6), Evolved(8, 32, C3Keys(7)[3])) == C3Keys(8)
  {
    hide Evolved;
    C3Added8();
  }

  lemma C3Added9()
    ensures Evolved(8, 36, Word(0xc1, 0x87, 0x1c, 0x2f)) == Word(0x78, 0x17, 0x9c, 0x15)
  {
    assert SubWord(Word(0xc1, 0x87, 0x1c, 0x2f)) == Word(0x78, 0x17, 0x9c, 0x15);
    hide SubWord, Rcon;
  }

  lemma C3Key9()
    ensures Chain(C3Keys(7), Evolved(8, 36, C3Keys(8)[3])) == C3Keys(9)
  {
    hide Evolved;
    C3Added9();
  }

  lemma C3Added10()
    ensures Evolved(8, 40, Word(0x64, 0x0a, 0x82, 0x0a)) == Word(0x77, 0x13, 0x67, 0x43)
  {
    assert SubWord(Word(0x0a, 0x82, 0x0a, 0x64)) == Word(0x67, 0x13, 0x67, 0x43);
    Constant5();
    hide SubWord, Rcon;
  }

  lemma C3Key10()
    ensures Chain(C3Keys(8), Evolved(8, 40, C3Keys(9)[3])) == C3Keys(10)
  {
    hide Evolved;
    C3Added10();
  }

  lemma C3Added11()
    ensures Evolved(8, 44, Word(0xd2, 0x61, 0xa7, 0xdf)) == Word(0xb5, 0xef, 0x5c, 0x9e)
  {
    assert SubWord(Word(0xd2, 0x61, 0xa7, 0xdf)) == Word(0xb5, 0xef, 0x5c, 0x9e);
    hide SubWord, Rcon;
  }

  lemma C3Key11()
    ensures Chain(C3Keys(9), Evolved(8, 44, C3Keys(10)[3])) == C3Keys(11)
  {
    hide Evolved;
    C3Added11();
  }

  lemma C3Added12()
    ensures Evolved(8, 48, Word(0xb3, 0xaf, 0xe6, 0x40)) == Word(0x59, 0x8e, 0x09, 0x6d)
  {
    assert SubWord(Word(0xaf, 0xe6, 0x40, 0xb3)) == Word(0x79, 0x8e, 0x09, 0x6d);
    Constant6();
    hide SubWord, Rcon;
  }

  lemma C3Key12()
    ensures Chain(C3Keys(10), Evolved(8, 48, C3Keys(11)[3])) == C3Keys(12)
  {
    hide Evolved;
    C3Added12();
  }

  lemma C3Added13()
    ensures Evolved(8, 52, Word(0x5a, 0x72, 0x1c, 0x0a)) == Word(0xbe, 0x40, 0x9c, 0x67)
  {
    assert SubWord(Word(0x5a, 0x72, 0x1c, 0x0a)) == Word(0xbe, 0x40, 0x9c, 0x67);
    hide SubWord, Rcon;
  }

  lemma C3Key13()
    ensures Chain(C3Keys(11), Evolved(8, 52, C3Keys(12)[3])) == C3Keys(13)
  {
    hide Evolved;
    C3Added13();
  }

  lemma C3Added14()
    ensures Evolved(8, 56, Word(0xcd, 0xf8, 0xcd, 0xea)) == Word(0x01, 0xbd, 0x87, 0xbd)
  {
    assert SubWord(Word(0xf8, 0xcd, 0xea, 0xcd)) == Word(0x41, 0xbd, 0x87, 0xbd);
    Constant7();
    hide SubWord, Rcon;
  }

  lemma C3Key14()
    ensures Chain(C3Keys(12), Evolved(8, 56, C3Keys(13)[3])) == C3Keys(14)
  {
    hide Evolved;
    C3Added14();
  }

  lemma C3Sub1()
    ensures SubWord(Word(0x00, 0x50, 0xa0, 0xf0)) == Word(0x63, 0x53, 0xe0, 0x8c)
    ensures SubWord(Word(0x40, 0x90, 0xe0, 0x30)) == Word(0x09, 0x60, 0xe1, 0x04)
    ensures SubWord(Word(0x80, 0xd0, 0x20, 0x70)) == Word(0xcd, 0x70, 0xb7, 0x51)
    ensures SubWord(Word(0xc0, 0x10, 0x60, 0xb0)) == Word(0xba, 0xca, 0xd0, 0xe7)
  {
  }

  lemma C3Add1()
    ensures MixColumn(Word(0x63, 0x53, 0xe0, 0x8c)) == Word(0x5f, 0x72, 0x64, 0x15)
    ensures MixColumn(Word(0x09, 0x60, 0xe1, 0x04)) == Word(0x57, 0xf5, 0xbc, 0x92)
    ensures MixColumn(Word(0xcd, 0x70, 0xb7, 0x51)) == Word(0xf7, 0xbe, 0x3b, 0x29)
    ensures MixColumn(Word(0xba, 0xca, 0xd0, 0xe7)) == Word(0x1d, 0xb9, 0xf9, 0x1a)
    ensures Word(0x5f, 0x72, 0x64, 0x15).Xor(Word(0x10, 0x11, 0x12, 0x13)) == Word(0x4f, 0x63, 0x76, 0x06)
    ensures Word(0x57, 0xf5, 0xbc, 0x92).Xor(Word(0x14, 0x15, 0x16, 0x17)) == Word(0x43, 0xe0, 0xaa, 0x85)
    ensures Word(0xf7, 0xbe, 0x3b, 0x29).Xor(Word(0x18, 0x19, 0x1a, 0x1b)) == Word(0xef, 0xa7, 0x21, 0x32)
    ensures Word(0x1d, 0xb9, 0xf9, 0x1a).Xor(Word(0x1c, 0x1d, 0x1e, 0x1f)) == Word(0x01, 0xa4, 0xe7, 0x05)
  {
  }

  lemma C3Round1()
    ensures Turn(C3States(0), C3Keys(1)) == C3States(1)
  {
    hide SubWord, MixColumn, Word.Xor;
    C3Sub1();
    C3Add1();
    TurnColumns(C3States(0), C3Keys(1));
  }

  lemma C3Sub2()
    ensures SubWord(Word(0x4f, 0xe0, 0x21, 0x05)) == Word(0x84, 0xe1, 0xfd, 0x6b)
    ensures SubWord(Word(0x43, 0xa7, 0xe7, 0x06)) == Word(0x1a, 0x5c, 0x94, 0x6f)
    ensures SubWord(Word(0xef, 0xa4, 0x76, 0x85)) == Word(0xdf, 0x49, 0x38, 0x97)
    ensures SubWord(Word(0x01, 0x63, 0xaa, 0x32)) == Word(0x7c, 0xfb, 0xac, 0x23)
  {
  }

  lemma C3Add2()
    ensures MixColumn(Word(0x84, 0xe1, 0xfd, 0x6b)) == Word(0xbd, 0x2a, 0x39, 0x5d)
    ensures MixColumn(Word(0x1a, 0x5c, 0x94, 0x6f)) == Word(0x2b, 0x6a, 0xc4, 0x38)
    ensures MixColumn(Word(0xdf, 0x49, 0x38, 0x97)) == Word(0xd1, 0x92, 0x44, 0x3e)
    ensures MixColumn(Word(0x7c, 0xfb, 0xac, 0x23)) == Word(0x61, 0x5d, 0xa1, 0x95)
    ensures Word(0xbd, 0x2a, 0x39, 0x5d).Xor(Word(0xa5, 0x73, 0xc2, 0x9f)) == Word(0x18, 0x59, 0xfb, 0xc2)
    ensures Word(0x2b, 0x6a, 0xc4, 0x38).Xor(Word(0xa1, 0x76, 0xc4, 0x98)) == Word(0x8a, 0x1c, 0x00, 0xa0)
    ensures Word(0xd1, 0x92, 0x44, 0x3e).Xor(Word(0xa9, 0x7f, 0xce, 0x93)) == Word(0x78, 0xed, 0x8a, 0xad)
    ensures Word(0x61, 0x5d, 0xa1, 0x95).Xor(Word(0xa5, 0x72, 0xc0, 0x9c)) == Word(0xc4, 0x2f, 0x61, 0x09)
  {
  }

  lemma C3Round2()
    ensures Turn(C3States(1), C3Keys(2)) == C3States(2)
  {
    hide SubWord, MixColumn, Word.Xor;
    C3Sub2();
    C3Add2();
    TurnColumns(C3States(1), C3Keys(2));
  }

  lemma C3Sub3()
    ensures SubWord(Word(0x18, 0x1c, 0x8a, 0x09)) == Word(0xad, 0x9c, 0x7e, 0x01)
    ensures SubWord(Word(0x8a, 0xed, 0x61, 0xc2)) == Word(0x7e, 0x55, 0xef, 0x25)
    ensures SubWord(Word(0x78, 0x2f, 0xfb, 0xa0)) == Word(0xbc, 0x15, 0x0f, 0xe0)
    ensures SubWord(Word(0xc4, 0x59, 0x00, 0xad)) == Word(0x1c, 0xcb, 0x63, 0x95)
  {
  }

  lemma C3Add3()
    ensures MixColumn(Word(0xad, 0x9c, 0x7e, 0x01)) == Word(0x81, 0x0d, 0xce, 0x0c)
    ensures MixColumn(Word(0x7e, 0x55, 0xef, 0x25)) == Word(0xc9, 0xdb, 0x81, 0x72)
    ensures MixColumn(Word(0xbc, 0x15, 0x0f, 0xe0)) == Word(0xb3, 0x67, 0x8c, 0x1e)
    ensures MixColumn(Word(0x1c, 0xcb, 0x63, 0x95)) == Word(0x88, 0xa1, 0xb5, 0xbd)
    ensures Word(0x81, 0x0d, 0xce, 0x0c).Xor(Word(0x16, 0x51, 0xa8, 0xcd)) == Word(0x97, 0x5c, 0x66, 0xc1)
    ensures Word(0xc9, 0xdb, 0x81, 0x72).Xor(Word(0x02, 0x44, 0xbe, 0xda)) == Word(0xcb, 0x9f, 0x3f, 0xa8)
    ensures Word(0xb3, 0x67, 0x8c, 0x1e).Xor(Word(0x1a, 0x5d, 0xa4, 0xc1)) == Word(0xa9, 0x3a, 0x28, 0xdf)
    ensures Word(0x88, 0xa1, 0xb5, 0xbd).Xor(Word(0x06, 0x40, 0xba, 0xde)) == Word(0x8e, 0xe1, 0x0f, 0x63)
  {
  }

  lemma C3Round3()
    ensures Turn(C3States(2), C3Keys(3)) == C3States(3)
  {
    hide SubWord, MixColumn, Word.Xor;
    C3Sub3();
    C3Add3();
    TurnColumns(C3States(2), C3Keys(3));
  }

  lemma C3Sub4()
    ensures SubWord(Word(0x97, 0x9f, 0x28, 0x63)) == Word(0x88, 0xdb, 0x34, 0xfb)
    ensures SubWord(Word(0xcb, 0x3a, 0x0f, 0xc1)) == Word(0x1f, 0x80, 0x76, 0x78)
    ensures SubWord(Word(0xa9, 0xe1, 0x66, 0xa8)) == Word(0xd3, 0xf8, 0x33, 0xc2)
    ensures SubWord(Word(0x8e, 0x5c, 0x3f, 0xdf)) == Word(0x19, 0x4a, 0x75, 0x9e)
  {
  }

  lemma C3Add4()
    ensures MixColumn(Word(0x88, 0xdb, 0x34, 0xfb)) == Word(0xb2, 0x82, 0x2d, 0x81)
    ensures MixColumn(Word(0x1f, 0x80, 0x76, 0x78)) == Word(0xab, 0xe6, 0xfb, 0x27)
    ensures MixColumn(Word(0xd3, 0xf8, 0x33, 0xc2)) == Word(0x5f, 0xaf, 0x10, 0x3a)
    ensures MixColumn(Word(0x19, 0x4a, 0x75, 0x9e)) == Word(0x07, 0x8c, 0x00, 0x33)
    ensures Word(0xb2, 0x82, 0x2d, 0x81).Xor(Word(0xae, 0x87, 0xdf, 0xf0)) == Word(0x1c, 0x05, 0xf2, 0x71)
    ensures Word(0xab, 0xe6, 0xfb, 0x27).Xor(Word(0x0f, 0xf1, 0x1b, 0x68)) == Word(0xa4, 0x17, 0xe0, 0x4f)
    ensures Word(0x5f, 0xaf, 0x10, 0x3a).Xor(Word(0xa6, 0x8e, 0xd5, 0xfb)) == Word(0xf9, 0x21, 0xc5, 0xc1)
    ensures Word(0x07, 0x8c, 0x00, 0x33).Xor(Word(0x03, 0xfc, 0x15, 0x67)) == Word(0x04, 0x70, 0x15, 0x54)
  {
  }

  lemma C3Round4()
    ensures Turn(C3States(3), C3Keys(4)) == C3States(4)
  {
    hide SubWord, MixColumn, Word.Xor;
    C3Sub4();
    C3Add4();
    TurnColumns(C3States(3), C3Keys(4));
  }

  lemma C3Sub5()
    ensures SubWord(Word(0x1c, 0x17, 0xc5, 0x54)) == Word(0x9c, 0xf0, 0xa6, 0x20)
    ensures SubWord(Word(0xa4, 0x21, 0x15, 0x71)) == Word(0x49, 0xfd, 0x59, 0xa3)
    ensures SubWord(Word(0xf9, 0x70, 0xf2, 0x4f)) == Word(0x99, 0x51, 0x89, 0x84)
    ensures SubWord(Word(0x04, 0x05, 0xe0, 0xc1)) == Word(0xf2, 0x6b, 0xe1, 0x78)
  {
  }

  lemma C3Add5()
    ensures MixColumn(Word(0x9c, 0xf0, 0xa6, 0x20)) == Word(0xae, 0xb6, 0x5b, 0xa9)
    ensures MixColumn(Word(0x49, 0xfd, 0x59, 0xa3)) == Word(0x74, 0xe0, 0xf8, 0x22)
    ensures MixColumn(Word(0x99, 0x51, 0x89, 0x84)) == Word(0xd7, 0x3f, 0x56, 0x7b)
    ensures MixColumn(Word(0xf2, 0x6b, 0xe1, 0x78)) == Word(0xdb, 0x64, 0xc8, 0x77)
    ensures Word(0xae, 0xb6, 0x5b, 0xa9).Xor(Word(0x6d, 0xe1, 0xf1, 0x48)) == Word(0xc3, 0x57, 0xaa, 0xe1)
    ensures Word(0x74, 0xe0, 0xf8, 0x22).Xor(Word(0x6f, 0xa5, 0x4f, 0x92)) == Word(0x1b, 0x45, 0xb7, 0xb0)
    ensures Word(0xd7, 0x3f, 0x56, 0x7b).Xor(Word(0x75, 0xf8, 0xeb, 0x53)) == Word(0xa2, 0xc7, 0xbd, 0x28)
    ensures Word(0xdb, 0x64, 0xc8, 0x77).Xor(Word(0x73, 0xb8, 0x51, 0x8d)) == Word(0xa8, 0xdc, 0x99, 0xfa)
  {
  }

  lemma C3Round5()
    ensures Turn(C3States(4), C3Keys(5)) == C3States(5)
  {
    hide SubWord, MixColumn, Word.Xor;
    C3Sub5();
    C3Add5();
    TurnColumns(C3States(4), C3Keys(5));
  }

  lemma C3Sub6()
    ensures SubWord(Word(0xc3, 0x45, 0xbd, 0xfa)) == Word(0x2e, 0x6e, 0x7a, 0x2d)
    ensures SubWord(Word(0x1b, 0xc7, 0x99, 0xe1)) == Word(0xaf, 0xc6, 0xee, 0xf8)
    ensures SubWord(Word(0xa2, 0xdc, 0xaa, 0xb0)) == Word(0x3a, 0x86, 0xac, 0xe7)
    ensures SubWord(Word(0xa8, 0x57, 0xb7, 0x28)) == Word(0xc2, 0x5b, 0xa9, 0x34)
  {
  }

  lemma C3Add6()
    ensures MixColumn(Word(0x2e, 0x6e, 0x7a, 0x2d)) == Word(0xb9, 0x51, 0xc3, 0x3c)
    ensures MixColumn(Word(0xaf, 0xc6, 0xee, 0xf8)) == Word(0x02, 0xe9, 0xbd, 0x29)
    ensures MixColumn(Word(0x3a, 0x86, 0xac, 0xe7)) == Word(0xae, 0x25, 0xcd, 0xb1)
    ensures MixColumn(Word(0xc2, 0x5b, 0xa9, 0x34)) == Word(0xef, 0xa0, 0x8c, 0xc7)
    ensures Word(0xb9, 0x51, 0xc3, 0x3c).Xor(Word(0xc6, 0x56, 0x82, 0x7f)) == Word(0x7f, 0x07, 0x41, 0x43)
    ensures Word(0x02, 0xe9, 0xbd, 0x29).Xor(Word(0xc9, 0xa7, 0x99, 0x17)) == Word(0xcb, 0x4e, 0x24, 0x3e)
    ensures Word(0xae, 0x25, 0xcd, 0xb1).Xor(Word(0x6f, 0x29, 0x4c, 0xec)) == Word(0xc1, 0x0c, 0x81, 0x5d)
    ensures Word(0xef, 0xa0, 0x8c, 0xc7).Xor(Word(0x6c, 0xd5, 0x59, 0x8b)) == Word(0x83, 0x75, 0xd5, 0x4c)
  {
  }

  lemma C3Round6()
    ensures Turn(C3States(5), C3Keys(6)) == C3States(6)
  {
    hide SubWord, MixColumn, Word.Xor;
    C3Sub6();
    C3Add6();
    TurnColumns(C3States(5), C3Keys(6));
  }

  lemma C3Sub7()
    ensures SubWord(Word(0x7f, 0x4e, 0x81, 0x4c)) == Word(0xd2, 0x2f, 0x0c, 0x29)
    ensures SubWord(Word(0xcb, 0x0c, 0xd5, 0x43)) == Word(0x1f, 0xfe, 0x03, 0x1a)
    ensures SubWord(Word(0xc1, 0x75, 0x41, 0x3e)) == Word(0x78, 0x9d, 0x83, 0xb2)
    ensures SubWord(Word(0x83, 0x07, 0x24, 0x5d)) == Word(0xec, 0xc5, 0x36, 0x4c)
  {
  }

  lemma C3Add7()
    ensures MixColumn(Word(0xd2, 0x2f, 0x0c, 0x29)) == Word(0xeb, 0xb1, 0x9e, 0x1c)
    ensures MixColumn(Word(0x1f, 0xfe, 0x03, 0x1a)) == Word(0x3e, 0xe7, 0xc9, 0xe8)
    ensures MixColumn(Word(0x78, 0x9d, 0x83, 0xb2)) == Word(0x7d, 0x75, 0x35, 0xe9)
    ensures MixColumn(Word(0xec, 0xc5, 0x36, 0x4c)) == Word(0xed, 0x6b, 0x91, 0x44)
    ensures Word(0xeb, 0xb1, 0x9e, 0x1c).Xor(Word(0x3d, 0xe2, 0x3a, 0x75)) == Word(0xd6, 0x53, 0xa4, 0x69)
    ensures Word(0x3e, 0xe7, 0xc9, 0xe8).Xor(Word(0x52, 0x47, 0x75, 0xe7)) == Word(0x6c, 0xa0, 0xbc, 0x0f)
    ensures Word(0x7d, 0x75, 0x35, 0xe9).Xor(Word(0x27, 0xbf, 0x9e, 0xb4)) == Word(0x5a, 0xca, 0xab, 0x5d)
    ensures Word(0xed, 0x6b, 0x91, 0x44).Xor(Word(0x54, 0x07, 0xcf, 0x39)) == Word(0xb9, 0x6c, 0x5e, 0x7d)
  {
  }

  lemma C3Round7()
    ensures Turn(C3States(6), C3Keys(7)) == C3States(7)
  {
    hide SubWord, MixColumn, Word.Xor;
    C3Sub7();
    C3Add7();
    TurnColumns(C3States(6), C3Keys(7));
  }

  lemma C3Sub8()
    ensures SubWord(Word(0xd6, 0xa0, 0xab, 0x7d)) == Word(0xf6, 0xe0, 0x62, 0xff)
    ensures SubWord(Word(0x6c, 0xca, 0x5e, 0x69)) == Word(0x50, 0x74, 0x58, 0xf9)
    ensures SubWord(Word(0x5a, 0x6c, 0xa4, 0x0f)) == Word(0xbe, 0x50, 0x49, 0x76)
    ensures SubWord(Word(0xb9, 0x53, 0xbc, 0x5d)) == Word(0x56, 0xed, 0x65, 0x4c)
  {
  }

  lemma C3Add8()
    ensures MixColumn(Word(0xf6, 0xe0, 0x62, 0xff)) == Word(0x51, 0x74, 0xc8, 0x66)
    ensures MixColumn(Word(0x50, 0x74, 0x58, 0xf9)) == Word(0x9d, 0xa9, 0x84, 0x35)
    ensures MixColumn(Word(0xbe, 0x50, 0x49, 0x76)) == Word(0xa8, 0xb3, 0xe6, 0x2c)
    ensures MixColumn(Word(0x56, 0xed, 0x65, 0x4c)) == Word(0xa9, 0x74, 0xa5, 0xea)
    ensures Word(0x51, 0x74, 0xc8, 0x66).Xor(Word(0x0b, 0xdc, 0x90, 0x5f)) == Word(0x5a, 0xa8, 0x58, 0x39)
    ensures Word(0x9d, 0xa9, 0x84, 0x35).Xor(Word(0xc2, 0x7b, 0x09, 0x48)) == Word(0x5f, 0xd2, 0x8d, 0x7d)
    ensures Word(0xa8, 0xb3, 0xe6, 0x2c).Xor(Word(0xad, 0x52, 0x45, 0xa4)) == Word(0x05, 0xe1, 0xa3, 0x88)
    ensures Word(0xa9, 0x74, 0xa5, 0xea).Xor(Word(0xc1, 0x87, 0x1c, 0x2f)) == Word(0x68, 0xf3, 0xb9, 0xc5)
  {
  }

  lemma C3Round8()
    ensures Turn(C3States(7), C3Keys(8)) == C3States(8)
  {
    hide SubWord, MixColumn, Word.Xor;
    C3Sub8();
    C3Add8();
    TurnColumns(C3States(7), C3Keys(8));
  }

  lemma C3Sub9()
    ensures SubWord(Word(0x5a, 0xd2, 0xa3, 0xc5)) == Word(0xbe, 0xb5, 0x0a, 0xa6)
    ensures SubWord(Word(0x5f, 0xe1, 0xb9, 0x39)) == Word(0xcf, 0xf8, 0x56, 0x12)
    ensures SubWord(Word(0x05, 0xf3, 0x58, 0x7d)) == Word(0x6b, 0x0d, 0x6a, 0xff)
    ensures SubWord(Word(0x68, 0xa8, 0x8d, 0x88)) == Word(0x45, 0xc2, 0x5d, 0xc4)
  {
  }

  lemma C3Add9()
    ensures MixColumn(Word(0xbe, 0xb5, 0x0a, 0xa6)) == Word(0x0f, 0x77, 0xee, 0x31)
    ensures MixColumn(Word(0xcf, 0xf8, 0x56, 0x12)) == Word(0xd2, 0xcc, 0xad, 0xc0)
    ensures MixColumn(Word(0x6b, 0x0d, 0x6a, 0xff)) == Word(0x54, 0x30, 0xa8, 0x3f)
    ensures MixColumn(Word(0x45, 0xc2, 0x5d, 0xc4)) == Word(0x4e, 0xf9, 0x6a, 0xc3)
    ensures Word(0x0f, 0x77, 0xee, 0x31).Xor(Word(0x45, 0xf5, 0xa6, 0x60)) == Word(0x4a, 0x82, 0x48, 0x51)
    ensures Word(0xd2, 0xcc, 0xad, 0xc0).Xor(Word(0x17, 0xb2, 0xd3, 0x87)) == Word(0xc5, 0x7e, 0x7e, 0x47)
    ensures Word(0x54, 0x30, 0xa8, 0x3f).Xor(Word(0x30, 0x0d, 0x4d, 0x33)) == Word(0x64, 0x3d, 0xe5, 0x0c)
    ensures Word(0x4e, 0xf9, 0x6a, 0xc3).Xor(Word(0x64, 0x0a, 0x82, 0x0a)) == Word(0x2a, 0xf3, 0xe8, 0xc9)
  {
  }

  lemma C3Round9()
    ensures Turn(C3States(8), C3Keys(9)) == C3States(9)
  {
    hide SubWord, MixColumn, Word.Xor;
    C3Sub9();
    C3Add9();
    TurnColumns(C3States(8), C3Keys(9));
  }

  lemma C3Sub10()
    ensures SubWord(Word(0x4a, 0x7e, 0xe5, 0xc9)) == Word(0xd6, 0xf3, 0xd9, 0xdd)
    ensures SubWord(Word(0xc5, 0x3d, 0xe8, 0x51)) == Word(0xa6, 0x27, 0x9b, 0xd1)
    ensures SubWord(Word(0x64, 0xf3, 0x48, 0x47)) == Word(0x43, 0x0d, 0x52, 0xa0)
    ensures SubWord(Word(0x2a, 0x82, 0x7e, 0x0c)) == Word(0xe5, 0x13, 0xf3, 0xfe)
  {
  }

  lemma C3Add10()
    ensures MixColumn(Word(0xd6, 0xf3, 0xd9, 0xdd)) == Word(0xbd, 0x86, 0xf0, 0xea)
    ensures MixColumn(Word(0xa6, 0x27, 0x9b, 0xd1)) == Word(0x74, 0x8f, 0xc4, 0xf4)
    ensures MixColumn(Word(0x43, 0x0d, 0x52, 0xa0)) == Word(0x63, 0x0f, 0x11, 0xc1)
    ensures MixColumn(Word(0xe5, 0x13, 0xf3, 0xfe)) == Word(0xe9, 0x33, 0x12, 0x33)
    ensures Word(0xbd, 0x86, 0xf0, 0xea).Xor(Word(0x7c, 0xcf, 0xf7, 0x1c)) == Word(0xc1, 0x49, 0x07, 0xf6)
    ensures Word(0x74, 0x8f, 0xc4, 0xf4).Xor(Word(0xbe, 0xb4, 0xfe, 0x54)) == Word(0xca, 0x3b, 0x3a, 0xa0)
    ensures Word(0x63, 0x0f, 0x11, 0xc1).Xor(Word(0x13, 0xe6, 0xbb, 0xf0)) == Word(0x70, 0xe9, 0xaa, 0x31)
    ensures Word(0xe9, 0x33, 0x12, 0x33).Xor(Word(0xd2, 0x61, 0xa7, 0xdf)) == Word(0x3b, 0x52, 0xb5, 0xec)
  {
  }

  lemma C3Round10()
    ensures Turn(C3States(9), C3Keys(10)) == C3States(10)
  {
    hide SubWord, MixColumn, Word.Xor;
    C3Sub10();
    C3Add10();
    TurnColumns(C3States(9), C3Keys(10));
  }

  lemma C3Sub11()
    ensures SubWord(Word(0xc1, 0x3b, 0xaa, 0xec)) == Word(0x78, 0xe2, 0xac, 0xce)
    ensures SubWord(Word(0xca, 0xe9, 0xb5, 0xf6)) == Word(0x74, 0x1e, 0xd5, 0x42)
    ensures SubWord(Word(0x70, 0x52, 0x07, 0xa0)) == Word(0x51, 0x00, 0xc5, 0xe0)
    ensures SubWord(Word(0x3b, 0x49, 0x3a, 0x31)) == Word(0xe2, 0x3b, 0x80, 0xc7)
  {
  }

  lemma C3Add11()
    ensures MixColumn(Word(0x78, 0xe2, 0xac, 0xce)) == Word(0xaf, 0x86, 0x90, 0x41)
    ensures MixColumn(Word(0x74, 0x1e, 0xd5, 0x42)) == Word(0x5d, 0x6e, 0x1d, 0xd3)
    ensures MixColumn(Word(0x51, 0x00, 0xc5, 0xe0)) == Word(0x87, 0xe5, 0xfb, 0xed)
    ensures MixColumn(Word(0xe2, 0x3b, 0x80, 0xc7)) == Word(0xd5, 0xc8, 0x90, 0x13)
    ensures Word(0xaf, 0x86, 0x90, 0x41).Xor(Word(0xf0, 0x1a, 0xfa, 0xfe)) == Word(0x5f, 0x9c, 0x6a, 0xbf)
    ensures Word(0x5d, 0x6e, 0x1d, 0xd3).Xor(Word(0xe7, 0xa8, 0x29, 0x79)) == Word(0xba, 0xc6, 0x34, 0xaa)
    ensures Word(0x87, 0xe5, 0xfb, 0xed).Xor(Word(0xd7, 0xa5, 0x64, 0x4a)) == Word(0x50, 0x40, 0x9f, 0xa7)
    ensures Word(0xd5, 0xc8, 0x90, 0x13).Xor(Word(0xb3, 0xaf, 0xe6, 0x40)) == Word(0x66, 0x67, 0x76, 0x53)
  {
  }

  lemma C3Round11()
    ensures Turn(C3States(10), C3Keys(11)) == C3States(11)
  {
    hide SubWord, MixColumn, Word.Xor;
    C3Sub11();
    C3Add11();
    TurnColumns(C3States(10), C3Keys(11));
  }

  lemma C3Sub12()
    ensures SubWord(Word(0x5f, 0xc6, 0x9f, 0x53)) == Word(0xcf, 0xb4, 0xdb, 0xed)
    ensures SubWord(Word(0xba, 0x40, 0x76, 0xbf)) == Word(0xf4, 0x09, 0x38, 0x08)
    ensures SubWord(Word(0x50, 0x67, 0x6a, 0xaa)) == Word(0x53, 0x85, 0x02, 0xac)
    ensures SubWord(Word(0x66, 0x9c, 0x34, 0xa7)) == Word(0x33, 0xde, 0x18, 0x5c)
  {
  }

  lemma C3Add12()
    ensures MixColumn(Word(0xcf, 0xb4, 0xdb, 0xed)) == Word(0x74, 0x27, 0xfa, 0xe4)
    ensures MixColumn(Word(0xf4, 0x09, 0x38, 0x08)) == Word(0xd8, 0xa6, 0x95, 0x26)
    ensures MixColumn(Word(0x53, 0x85, 0x02, 0xac)) == Word(0x9c, 0xe8, 0x3d, 0x31)
    ensures MixColumn(Word(0x33, 0xde, 0x18, 0x5c)) == Word(0x5b, 0xe0, 0x39, 0x2b)
    ensures Word(0x74, 0x27, 0xfa, 0xe4).Xor(Word(0x25, 0x41, 0xfe, 0x71)) == Word(0x51, 0x66, 0x04, 0x95)
    ensures Word(0xd8, 0xa6, 0x95, 0x26).Xor(Word(0x9b, 0xf5, 0x00, 0x25)) == Word(0x43, 0x53, 0x95, 0x03)
    ensures Word(0x9c, 0xe8, 0x3d, 0x31).Xor(Word(0x88, 0x13, 0xbb, 0xd5)) == Word(0x14, 0xfb, 0x86, 0xe4)
    ensures Word(0x5b, 0xe0, 0x39, 0x2b).Xor(Word(0x5a, 0x72, 0x1c, 0x0a)) == Word(0x01, 0x92, 0x25, 0x21)
  {
  }

  lemma C3Round12()
    ensures Turn(C3States(11), C3Keys(12)) == C3States(12)
  {
    hide SubWord, MixColumn, Word.Xor;
    C3Sub12();
    C3Add12();
    TurnColumns(C3States(11), C3Keys(12));
  }

  lemma C3Sub13()
    ensures SubWord(Word(0x51, 0x53, 0x86, 0x21)) == Word(0xd1, 0xed, 0x44, 0xfd)
    ensures SubWord(Word(0x43, 0xfb, 0x25, 0x95)) == Word(0x1a, 0x0f, 0x3f, 0x2a)
    ensures SubWord(Word(0x14, 0x92, 0x04, 0x03)) == Word(0xfa, 0x4f, 0xf2, 0x7b)
    ensures SubWord(Word(0x01, 0x66, 0x95, 0xe4)) == Word(0x7c, 0x33, 0x2a, 0x69)
  {
  }

  lemma C3Add13()
    ensures MixColumn(Word(0xd1, 0xed, 0x44, 0xfd)) == Word(0x2c, 0x21, 0xa8, 0x20)
    ensures MixColumn(Word(0x1a, 0x0f, 0x3f, 0x2a)) == Word(0x30, 0x6f, 0x15, 0x4a)
    ensures MixColumn(Word(0xfa, 0x4f, 0xf2, 0x7b)) == Word(0xb7, 0x12, 0xc7, 0x5e)
    ensures MixColumn(Word(0x7c, 0x33, 0x2a, 0x69)) == Word(0xee, 0x0d, 0xa0, 0x4f)
    ensures Word(0x2c, 0x21, 0xa8, 0x20).Xor(Word(0x4e, 0x5a, 0x66, 0x99)) == Word(0x62, 0x7b, 0xce, 0xb9)
    ensures Word(0x30, 0x6f, 0x15, 0x4a).Xor(Word(0xa9, 0xf2, 0x4f, 0xe0)) == Word(0x99, 0x9d, 0x5a, 0xaa)
    ensures Word(0xb7, 0x12, 0xc7, 0x5e).Xor(Word(0x7e, 0x57, 0x2b, 0xaa)) == Word(0xc9, 0x45, 0xec, 0xf4)
    ensures Word(0xee, 0x0d, 0xa0, 0x4f).Xor(Word(0xcd, 0xf8, 0xcd, 0xea)) == Word(0x23, 0xf5, 0x6d, 0xa5)
  {
  }

  lemma C3Round13()
    ensures Turn(C3States(12), C3Keys(13)) == C3States(13)
  {
    hide SubWord, MixColumn, Word.Xor;
    C3Sub13();
    C3Add13();
    TurnColumns(C3States(12), C3Keys(13));
  }

  lemma C3Sub14()
    ensures SubWord(Word(0x62, 0x9d, 0xec, 0xa5)) == Word(0xaa, 0x5e, 0xce, 0x06)
    ensures SubWord(Word(0x99, 0x45, 0x6d, 0xb9)) == Word(0xee, 0x6e, 0x3c, 0x56)
    ensures SubWord(Word(0xc9, 0xf5, 0xce, 0xaa)) == Word(0xdd, 0xe6, 0x8b, 0xac)
    ensures SubWord(Word(0x23, 0x7b, 0x5a, 0xf4)) == Word(0x26, 0x21, 0xbe, 0xbf)
  {
  }

  lemma C3Add14()
    ensures Word(0xaa, 0x5e, 0xce, 0x06).Xor(Word(0x24, 0xfc, 0x79, 0xcc)) == Word(0x8e, 0xa2, 0xb7, 0xca)
    ensures Word(0xee, 0x6e, 0x3c, 0x56).Xor(Word(0xbf, 0x09, 0x79, 0xe9)) == Word(0x51, 0x67, 0x45, 0xbf)
    ensures Word(0xdd, 0xe6, 0x8b, 0xac).Xor(Word(0x37, 0x1a, 0xc2, 0x3c)) == Word(0xea, 0xfc, 0x49, 0x90)
    ensures Word(0x26, 0x21, 0xbe, 0xbf).Xor(Word(0x6d, 0x68, 0xde, 0x36)) == Word(0x4b, 0x49, 0x60, 0x89)
  {
  }

  lemma C3Round14()
    ensures LastTurn(C3States(13), C3Keys(14)) == C3States(14)
  {
    hide SubWord, MixColumn, Word.Xor;
    C3Sub14();
    C3Add14();
    LastTurnColumns(C3States(13), C3Keys(14));
  }

  lemma C3Start()
    ensures AddRoundKey(PLAIN_STATE, C3Keys(0)) == C3States(0)
  {
  }

  /** The round keys of the schedule. */
  lemma C3Schedule()
    ensures var keys := Schedule(ToState(KEY), 4, 14);
            keys[0] == C3Keys(0) && keys[1] == C3Keys(1) && keys[2] == C3Keys(2) &&
            keys[3] == C3Keys(3) && keys[4] == C3Keys(4) && keys[5] == C3Keys(5) &&
            keys[6] == C3Keys(6) && keys[7] == C3Keys(7) && keys[8] == C3Keys(8) &&
            keys[9] == C3Keys(9) && keys[10] == C3Keys(10) && keys[11] == C3Keys(11) &&
            keys[12] == C3Keys(12) && keys[13] == C3Keys(13) && keys[14] == C3Keys(14)
  {
    hide Chain, Evolved, Expanded, ToState, C3Keys, FourOf, Schedule;
    var key := ToState(KEY);
    KeyIs();
    FirstWords(key, 0);
    RoundKeyIs(key, 14, 0);
    FirstWords(key, 4);
    RoundKeyIs(key, 14, 1);
    NextFour(key, 8);
    C3Key2();
    RoundKeyIs(key, 14, 2);
    NextFour(key, 12);
    C3Key3();
    RoundKeyIs(key, 14, 3);
    NextFour(key, 16);
    C3Key4();
    RoundKeyIs(key, 14, 4);
    NextFour(key, 20);
    C3Key5();
    RoundKeyIs(key, 14, 5);
    NextFour(key, 24);
    C3Key6();
    RoundKeyIs(key, 14, 6);
    NextFour(key, 28);
    C3Key7();
    RoundKeyIs(key, 14, 7);
    NextFour(key, 32);
    C3Key8();
    RoundKeyIs(key, 14, 8);
    NextFour(key, 36);
    C3Key9();
    RoundKeyIs(key, 14, 9);
    NextFour(key, 40);
    C3Key10();
    RoundKeyIs(key, 14, 10);
    NextFour(key, 44);
    C3Key11();
    RoundKeyIs(key, 14, 11);
    NextFour(key, 48);
    C3Key12();
    RoundKeyIs(key, 14, 12);
    NextFour(key, 52);
    C3Key13();
    RoundKeyIs(key, 14, 13);
    NextFour(key, 56);
    C3Key14();
    RoundKeyIs(key, 14, 14);
  }

  lemma FirstWords(key: seq<Word>, i: nat)
    requires i + 4 <= |key|
    ensures FourOf(key, i) == key[i..i + 4]
  {
  }

  /** The states of the cipher, and the ciphertext. */
  lemma C3Run()
    ensures var keys := Schedule(ToState(KEY), 4, 14); var s := PLAIN_STATE;
            Forward(keys, s, 0) == C3States(0) && Forward(keys, s, 1) == C3States(1) &&
            Forward(keys, s, 2) == C3States(2) && Forward(keys, s, 3) == C3States(3) &&
            Forward(keys, s, 4) == C3States(4) && Forward(keys, s, 5) == C3States(5) &&
            Forward(keys, s, 6) == C3States(6) && Forward(keys, s, 7) == C3States(7) &&
            Forward(keys, s, 8) == C3States(8) && Forward(keys, s, 9) == C3States(9) &&
            Forward(keys, s, 10) == C3States(10) && Forward(keys, s, 11) == C3States(11) &&
            Forward(keys, s, 12) == C3States(12) && Forward(keys, s, 13) == C3States(13) &&
            Cipher(keys, s) == C3States(14)
  {
    hide Forward, Cipher, Turn, LastTurn, AddRoundKey, Schedule, ToState, C3Keys, C3States;
    var keys := Schedule(ToState(KEY), 4, 14);
    C3Schedule();
    FirstState(keys, PLAIN_STATE);
    C3Start();
    NextState(keys, PLAIN_STATE, 1);
    C3Round1();
    NextState(keys, PLAIN_STATE, 2);
    C3Round2();
    NextState(keys, PLAIN_STATE, 3);
    C3Round3();
    NextState(keys, PLAIN_STATE, 4);
    C3Round4();
    NextState(keys, PLAIN_STATE, 5);
    C3Round5();
    NextState(keys, PLAIN_STATE, 6);
    C3Round6();
    NextState(keys, PLAIN_STATE, 7);
    C3Round7();
    NextState(keys, PLAIN_STATE, 8);
    C3Round8();
    NextState(keys, PLAIN_STATE, 9);
    C3Round9();
    NextState(keys, PLAIN_STATE, 10);
    C3Round10();
    NextState(keys, PLAIN_STATE, 11);
    C3Round11();
    NextState(keys, PLAIN_STATE, 12);
    C3Round12();
    NextState(keys, PLAIN_STATE, 13);
    C3Round13();
    LastState(keys, PLAIN_STATE);
    C3Round14();
  }
}
