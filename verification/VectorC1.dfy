// Section C.1 of FIPS 197: the published vector for keys of 128 bits, step by step.

module VectorC1 {
  import opened Gf256
  import opened Fips197
  import opened Vectors

  /** The key and the ciphertext, as bytes. */
  const KEY: seq<bv8> := [
    0x00, 0x01, 0x02, 0x03, 0x04, 0x05, 0x06, 0x07, 0x08, 0x09, 0x0a, 0x0b, 0x0c, 0x0d, 0x0e, 0x0f]
  const CIPHERTEXT: seq<bv8> := [
    0x69, 0xc4, 0xe0, 0xd8, 0x6a, 0x7b, 0x04, 0x30, 0xd8, 0xcd, 0xb7, 0x80, 0x70, 0xb4, 0xc5, 0x5a]

  lemma KeyIs()
    ensures ToState(KEY) == C1Keys(0)
  {
  }

  lemma CiphertextIs()
    ensures ToState(CIPHERTEXT) == C1States(10)
  {
  }

  /** The round keys. */
  function C1Keys(r: nat): (s: State)
    ensures |s| == 4
  {
    match r
    case 0 =>
      [Word(0x00, 0x01, 0x02, 0x03), Word(0x04, 0x05, 0x06, 0x07),
       Word(0x08, 0x09, 0x0a, 0x0b), Word(0x0c, 0x0d, 0x0e, 0x0f)]
    case 1 =>
      [Word(0xd6, 0xaa, 0x74, 0xfd), Word(0xd2, 0xaf, 0x72, 0xfa),
       Word(0xda, 0xa6, 0x78, 0xf1), Word(0xd6, 0xab, 0x76, 0xfe)]
    case 2 =>
      [Word(0xb6, 0x92, 0xcf, 0x0b), Word(0x64, 0x3d, 0xbd, 0xf1),
       Word(0xbe, 0x9b, 0xc5, 0x00), Word(0x68, 0x30, 0xb3, 0xfe)]
    case 3 =>
      [Word(0xb6, 0xff, 0x74, 0x4e), Word(0xd2, 0xc2, 0xc9, 0xbf),
       Word(0x6c, 0x59, 0x0c, 0xbf), Word(0x04, 0x69, 0xbf, 0x41)]
    case 4 =>
      [Word(0x47, 0xf7, 0xf7, 0xbc), Word(0x95, 0x35, 0x3e, 0x03),
       Word(0xf9, 0x6c, 0x32, 0xbc), Word(0xfd, 0x05, 0x8d, 0xfd)]
    case 5 =>
      [Word(0x3c, 0xaa, 0xa3, 0xe8), Word(0xa9, 0x9f, 0x9d, 0xeb),
       Word(0x50, 0xf3, 0xaf, 0x57), Word(0xad, 0xf6, 0x22, 0xaa)]
    case 6 =>
      [Word(0x5e, 0x39, 0x0f, 0x7d), Word(0xf7, 0xa6, 0x92, 0x96),
       Word(0xa7, 0x55, 0x3d, 0xc1), Word(0x0a, 0xa3, 0x1f, 0x6b)]
    case 7 =>
      [Word(0x14, 0xf9, 0x70, 0x1a), Word(0xe3, 0x5f, 0xe2, 0x8c),
       Word(0x44, 0x0a, 0xdf, 0x4d), Word(0x4e, 0xa9, 0xc0, 0x26)]
    case 8 =>
      [Word(0x47, 0x43, 0x87, 0x35), Word(0xa4, 0x1c, 0x65, 0xb9),
       Word(0xe0, 0x16, 0xba, 0xf4), Word(0xae, 0xbf, 0x7a, 0xd2)]
    case 9 =>
      [Word(0x54, 0x99, 0x32, 0xd1), Word(0xf0, 0x85, 0x57, 0x68),
       Word(0x10, 0x93, 0xed, 0x9c), Word(0xbe, 0x2c, 0x97, 0x4e)]
    case _ =>
      [Word(0x13, 0x11, 0x1d, 0x7f), Word(0xe3, 0x94, 0x4a, 0x17),
       Word(0xf3, 0x07, 0xa7, 0x8b), Word(0x4d, 0x2b, 0x30, 0xc5)]
  }

  /** The state at the start of the first round and after each round; the last is the ciphertext. */
  function C1States(r: nat): (s: State)
    ensures |s| == 4
  {
    match r
    case 0 =>
      [Word(0x00, 0x10, 0x20, 0x30), Word(0x40, 0x50, 0x60, 0x70),
       Word(0x80, 0x90, 0xa0, 0xb0), Word(0xc0, 0xd0, 0xe0, 0xf0)]
    case 1 =>
      [Word(0x89, 0xd8, 0x10, 0xe8), Word(0x85, 0x5a, 0xce, 0x68),
       Word(0x2d, 0x18, 0x43, 0xd8), Word(0xcb, 0x12, 0x8f, 0xe4)]
    case 2 =>
      [Word(0x49, 0x15, 0x59, 0x8f), Word(0x55, 0xe5, 0xd7, 0xa0),
       Word(0xda, 0xca, 0x94, 0xfa), Word(0x1f, 0x0a, 0x63, 0xf7)]
    case 3 =>
      [Word(0xfa, 0x63, 0x6a, 0x28), Word(0x25, 0xb3, 0x39, 0xc9),
       Word(0x40, 0x66, 0x8a, 0x31), Word(0x57, 0x24, 0x4d, 0x17)]
    case 4 =>
      [Word(0x24, 0x72, 0x40, 0x23), Word(0x69, 0x66, 0xb3, 0xfa),
       Word(0x6e, 0xd2, 0x75, 0x32), Word(0x88, 0x42, 0x5b, 0x6c)]
    case 5 =>
      [Word(0xc8, 0x16, 0x77, 0xbc), Word(0x9b, 0x7a, 0xc9, 0x3b),
       Word(0x25, 0x02, 0x79, 0x92), Word(0xb0, 0x26, 0x19, 0x96)]
    case 6 =>
      [Word(0xc6, 0x2f, 0xe1, 0x09), Word(0xf7, 0x5e, 0xed, 0xc3),
       Word(0xcc, 0x79, 0x39, 0x5d), Word(0x84, 0xf9, 0xcf, 0x5d)]
    case 7 =>
      [Word(0xd1, 0x87, 0x6c, 0x0f), Word(0x79, 0xc4, 0x30, 0x0a),
       Word(0xb4, 0x55, 0x94, 0xad), Word(0xd6, 0x6f, 0xf4, 0x1f)]
    case 8 =>
      [Word(0xfd, 0xe3, 0xba, 0xd2), Word(0x05, 0xe5, 0xd0, 0xd7),
       Word(0x35, 0x47, 0x96, 0x4e), Word(0xf1, 0xfe, 0x37, 0xf1)]
    case 9 =>
      [Word(0xbd, 0x6e, 0x7c, 0x3d), Word(0xf2, 0xb5, 0x77, 0x9e),
       Word(0x0b, 0x61, 0x21, 0x6e), Word(0x8b, 0x10, 0xb6, 0x89)]
    case _ =>
      [Word(0x69, 0xc4, 0xe0, 0xd8), Word(0x6a, 0x7b, 0x04, 0x30),
       Word(0xd8, 0xcd, 0xb7, 0x80), Word(0x70, 0xb4, 0xc5, 0x5a)]
  }

  lemma C1Added1()
    ensures Evolved(4, 4, Word(0x0c, 0x0d, 0x0e, 0x0f)) == Word(0xd6, 0xab, 0x76, 0xfe)
  {
    assert SubWord(Word(0x0d, 0x0e, 0x0f, 0x0c)) == Word(0xd7, 0xab, 0x76, 0xfe);
    Constant1();
    hide SubWord, Rcon;
  }

  lemma C1Key1()
    ensures Chain(C1Keys(0), Evolved(4, 4, C1Keys(0)[3])) == C1Keys(1)
  {
    hide Evolved;
    C1Added1();
  }

  lemma C1Added2()
    ensures Evolved(4, 8, Word(0xd6, 0xab, 0x76, 0xfe)) == Word(0x60, 0x38, 0xbb, 0xf6)
  {
    assert SubWord(Word(0xab, 0x76, 0xfe, 0xd6)) == Word(0x62, 0x38, 0xbb, 0xf6);
    Constant2();
    hide SubWord, Rcon;
  }

  lemma C1Key2()
    ensures Chain(C1Keys(1), Evolved(4, 8, C1Keys(1)[3])) == C1Keys(2)
  {
    hide Evolved;
    C1Added2();
  }

  lemma C1Added3()
    ensures Evolved(4, 12, Word(0x68, 0x30, 0xb3, 0xfe)) == Word(0x00, 0x6d, 0xbb, 0x45)
  {
    assert SubWord(Word(0x30, 0xb3, 0xfe, 0x68)) == Word(0x04, 0x6d, 0xbb, 0x45);
    Constant3();
    hide SubWord, Rcon;
  }

  lemma C1Key3()
    ensures Chain(C1Keys(2), Evolved(4, 12, C1Keys(2)[3])) == C1Keys(3)
  {
    hide Evolved;
    C1Added3();
  }

  lemma C1Added4()
    ensures Evolved(4, 16, Word(0x04, 0x69, 0xbf, 0x41)) == Word(0xf1, 0x08, 0x83, 0xf2)
  {
    assert SubWord(Word(0x69, 0xbf, 0x41, 0x04)) == Word(0xf9, 0x08, 0x83, 0xf2);
    Constant4();
    hide SubWord, Rcon;
  }

  lemma C1Key4()
    ensures Chain(C1Keys(3), Evolved(4, 16, C1Keys(3)[3])) == C1Keys(4)
  {
    hide Evolved;
    C1Added4();
  }

  lemma C1Added5()
    ensures Evolved(4, 20, Word(0xfd, 0x05, 0x8d, 0xfd)) == Word(0x7b, 0x5d, 0x54, 0x54)
  {
    assert SubWord(Word(0x05, 0x8d, 0xfd, 0xfd)) == Word(0x6b, 0x5d, 0x54, 0x54);
    Constant5();
    hide SubWord, Rcon;
  }

  lemma C1Key5()
    ensures Chain(C1Keys(4), Evolved(4, 20, C1Keys(4)[3])) == C1Keys(5)
  {
    hide Evolved;
    C1Added5();
  }

  lemma C1Added6()
    ensures Evolved(4, 24, Word(0xad, 0xf6, 0x22, 0xaa)) == Word(0x62, 0x93, 0xac, 0x95)
  {
    assert SubWord(Word(0xf6, 0x22, 0xaa, 0xad)) == Word(0x42, 0x93, 0xac, 0x95);
    Constant6();
    hide SubWord, Rcon;
  }

  lemma C1Key6()
    ensures Chain(C1Keys(5), Evolved(4, 24, C1Keys(5)[3])) == C1Keys(6)
  {
    hide Evolved;
    C1Added6();
  }

  lemma C1Added7()
    ensures Evolved(4, 28, Word(0x0a, 0xa3, 0x1f, 0x6b)) == Word(0x4a, 0xc0, 0x7f, 0x67)
  {
    assert SubWord(Word(0xa3, 0x1f, 0x6b, 0x0a)) == Word(0x0a, 0xc0, 0x7f, 0x67);
    Constant7();
    hide SubWord, Rcon;
  }

  lemma C1Key7()
    ensures Chain(C1Keys(6), Evolved(4, 28, C1Keys(6)[3])) == C1Keys(7)
  {
    hide Evolved;
    C1Added7();
  }

  lemma C1Added8()
    ensures Evolved(4, 32, Word(0x4e, 0xa9, 0xc0, 0x26)) == Word(0x53, 0xba, 0xf7, 0x2f)
  {
    assert SubWord(Word(0xa9, 0xc0, 0x26, 0x4e)) == Word(0xd3, 0xba, 0xf7, 0x2f);
    Constant8();
    hide SubWord, Rcon;
  }

  lemma C1Key8()
    ensures Chain(C1Keys(7), Evolved(4, 32, C1Keys(7)[3])) == C1Keys(8)
  {
    hide Evolved;
    C1Added8();
  }

  lemma C1Added9()
    ensures Evolved(4, 36, Word(0xae, 0xbf, 0x7a, 0xd2)) == Word(0x13, 0xda, 0xb5, 0xe4)
  {
    assert SubWord(Word(0xbf, 0x7a, 0xd2, 0xae)) == Word(0x08, 0xda, 0xb5, 0xe4);
    Constant9();
    hide SubWord, Rcon;
  }

  lemma C1Key9()
    ensures Chain(C1Keys(8), Evolved(4, 36, C1Keys(8)[3])) == C1Keys(9)
  {
    hide Evolved;
    C1Added9();
  }

  lemma C1Added10()
    ensures Evolved(4, 40, Word(0xbe, 0x2c, 0x97, 0x4e)) == Word(0x47, 0x88, 0x2f, 0xae)
  {
    assert SubWord(Word(0x2c, 0x97, 0x4e, 0xbe)) == Word(0x71, 0x88, 0x2f, 0xae);
    Constant10();
    hide SubWord, Rcon;
  }

  lemma C1Key10()
    ensures Chain(C1Keys(9), Evolved(4, 40, C1Keys(9)[3])) == C1Keys(10)
  {
    hide Evolved;
    C1Added10();
  }

  lemma C1Sub1()
    ensures SubWord(Word(0x00, 0x50, 0xa0, 0xf0)) == Word(0x63, 0x53, 0xe0, 0x8c)
    ensures SubWord(Word(0x40, 0x90, 0xe0, 0x30)) == Word(0x09, 0x60, 0xe1, 0x04)
    ensures SubWord(Word(0x80, 0xd0, 0x20, 0x70)) == Word(0xcd, 0x70, 0xb7, 0x51)
    ensures SubWord(Word(0xc0, 0x10, 0x60, 0xb0)) == Word(0xba, 0xca, 0xd0, 0xe7)
  {
  }

  lemma C1Add1()
    ensures MixColumn(Word(0x63, 0x53, 0xe0, 0x8c)) == Word(0x5f, 0x72, 0x64, 0x15)
    ensures MixColumn(Word(0x09, 0x60, 0xe1, 0x04)) == Word(0x57, 0xf5, 0xbc, 0x92)
    ensures MixColumn(Word(0xcd, 0x70, 0xb7, 0x51)) == Word(0xf7, 0xbe, 0x3b, 0x29)
    ensures MixColumn(Word(0xba, 0xca, 0xd0, 0xe7)) == Word(0x1d, 0xb9, 0xf9, 0x1a)
    ensures Word(0x5f, 0x72, 0x64, 0x15).Xor(Word(0xd6, 0xaa, 0x74, 0xfd)) == Word(0x89, 0xd8, 0x10, 0xe8)
    ensures Word(0x57, 0xf5, 0xbc, 0x92).Xor(Word(0xd2, 0xaf, 0x72, 0xfa)) == Word(0x85, 0x5a, 0xce, 0x68)
    ensures Word(0xf7, 0xbe, 0x3b, 0x29).Xor(Word(0xda, 0xa6, 0x78, 0xf1)) == Word(0x2d, 0x18, 0x43, 0xd8)
    ensures Word(0x1d, 0xb9, 0xf9, 0x1a).Xor(Word(0xd6, 0xab, 0x76, 0xfe)) == Word(0xcb, 0x12, 0x8f, 0xe4)
  {
  }

  lemma C1Round1()
    ensures Turn(C1States(0), C1Keys(1)) == C1States(1)
  {
    hide SubWord, MixColumn, Word.Xor;
    C1Sub1();
    C1Add1();
    TurnColumns(C1States(0), C1Keys(1));
  }

  lemma C1Sub2()
    ensures SubWord(Word(0x89, 0x5a, 0x43, 0xe4)) == Word(0xa7, 0xbe, 0x1a, 0x69)
    ensures SubWord(Word(0x85, 0x18, 0x8f, 0xe8)) == Word(0x97, 0xad, 0x73, 0x9b)
    ensures SubWord(Word(0x2d, 0x12, 0x10, 0x68)) == Word(0xd8, 0xc9, 0xca, 0x45)
    ensures SubWord(Word(0xcb, 0xd8, 0xce, 0xd8)) == Word(0x1f, 0x61, 0x8b, 0x61)
  {
  }

  lemma C1Add2()
    ensures MixColumn(Word(0xa7, 0xbe, 0x1a, 0x69)) == Word(0xff, 0x87, 0x96, 0x84)
    ensures MixColumn(Word(0x97, 0xad, 0x73, 0x9b)) == Word(0x31, 0xd8, 0x6a, 0x51)
    ensures MixColumn(Word(0xd8, 0xc9, 0xca, 0x45)) == Word(0x64, 0x51, 0x51, 0xfa)
    ensures MixColumn(Word(0x1f, 0x61, 0x8b, 0x61)) == Word(0x77, 0x3a, 0xd0, 0x09)
    ensures Word(0xff, 0x87, 0x96, 0x84).Xor(Word(0xb6, 0x92, 0xcf, 0x0b)) == Word(0x49, 0x15, 0x59, 0x8f)
    ensures Word(0x31, 0xd8, 0x6a, 0x51).Xor(Word(0x64, 0x3d, 0xbd, 0xf1)) == Word(0x55, 0xe5, 0xd7, 0xa0)
    ensures Word(0x64, 0x51, 0x51, 0xfa).Xor(Word(0xbe, 0x9b, 0xc5, 0x00)) == Word(0xda, 0xca, 0x94, 0xfa)
    ensures Word(0x77, 0x3a, 0xd0, 0x09).Xor(Word(0x68, 0x30, 0xb3, 0xfe)) == Word(0x1f, 0x0a, 0x63, 0xf7)
  {
  }

  lemma C1Round2()
    ensures Turn(C1States(1), C1Keys(2)) == C1States(2)
  {
    hide SubWord, MixColumn, Word.Xor;
    C1Sub2();
    C1Add2();
    TurnColumns(C1States(1), C1Keys(2));
  }

  lemma C1Sub3()
    ensures SubWord(Word(0x49, 0xe5, 0x94, 0xf7)) == Word(0x3b, 0xd9, 0x22, 0x68)
    ensures SubWord(Word(0x55, 0xca, 0x63, 0x8f)) == Word(0xfc, 0x74, 0xfb, 0x73)
    ensures SubWord(Word(0xda, 0x0a, 0x59, 0xa0)) == Word(0x57, 0x67, 0xcb, 0xe0)
    ensures SubWord(Word(0x1f, 0x15, 0xd7, 0xfa)) == Word(0xc0, 0x59, 0x0e, 0x2d)
  {
  }

  lemma C1Add3()
    ensures MixColumn(Word(0x3b, 0xd9, 0x22, 0x68)) == Word(0x4c, 0x9c, 0x1e, 0x66)
    ensures MixColumn(Word(0xfc, 0x74, 0xfb, 0x73)) == Word(0xf7, 0x71, 0xf0, 0x76)
    ensures MixColumn(Word(0x57, 0x67, 0xcb, 0xe0)) == Word(0x2c, 0x3f, 0x86, 0x8e)
    ensures MixColumn(Word(0xc0, 0x59, 0x0e, 0x2d)) == Word(0x53, 0x4d, 0xf2, 0x56)
    ensures Word(0x4c, 0x9c, 0x1e, 0x66).Xor(Word(0xb6, 0xff, 0x74, 0x4e)) == Word(0xfa, 0x63, 0x6a, 0x28)
    ensures Word(0xf7, 0x71, 0xf0, 0x76).Xor(Word(0xd2, 0xc2, 0xc9, 0xbf)) == Word(0x25, 0xb3, 0x39, 0xc9)
    ensures Word(0x2c, 0x3f, 0x86, 0x8e).Xor(Word(0x6c, 0x59, 0x0c, 0xbf)) == Word(0x40, 0x66, 0x8a, 0x31)
    ensures Word(0x53, 0x4d, 0xf2, 0x56).Xor(Word(0x04, 0x69, 0xbf, 0x41)) == Word(0x57, 0x24, 0x4d, 0x17)
  {
  }

  lemma C1Round3()
    ensures Turn(C1States(2), C1Keys(3)) == C1States(3)
  {
    hide SubWord, MixColumn, Word.Xor;
    C1Sub3();
    C1Add3();
    TurnColumns(C1States(2), C1Keys(3));
  }

  lemma C1Sub4()
    ensures SubWord(Word(0xfa, 0xb3, 0x8a, 0x17)) == Word(0x2d, 0x6d, 0x7e, 0xf0)
    ensures SubWord(Word(0x25, 0x66, 0x4d, 0x28)) == Word(0x3f, 0x33, 0xe3, 0x34)
    ensures SubWord(Word(0x40, 0x24, 0x6a, 0xc9)) == Word(0x09, 0x36, 0x02, 0xdd)
    ensures SubWord(Word(0x57, 0x63, 0x39, 0x31)) == Word(0x5b, 0xfb, 0x12, 0xc7)
  {
  }

  lemma C1Add4()
    ensures MixColumn(Word(0x2d, 0x6d, 0x7e, 0xf0)) == Word(0x63, 0x85, 0xb7, 0x9f)
    ensures MixColumn(Word(0x3f, 0x33, 0xe3, 0x34)) == Word(0xfc, 0x53, 0x8d, 0xf9)
    ensures MixColumn(Word(0x09, 0x36, 0x02, 0xdd)) == Word(0x97, 0xbe, 0x47, 0x8e)
    ensures MixColumn(Word(0x5b, 0xfb, 0x12, 0xc7)) == Word(0x75, 0x47, 0xd6, 0x91)
    ensures Word(0x63, 0x85, 0xb7, 0x9f).Xor(Word(0x47, 0xf7, 0xf7, 0xbc)) == Word(0x24, 0x72, 0x40, 0x23)
    ensures Word(0xfc, 0x53, 0x8d, 0xf9).Xor(Word(0x95, 0x35, 0x3e, 0x03)) == Word(0x69, 0x66, 0xb3, 0xfa)
    ensures Word(0x97, 0xbe, 0x47, 0x8e).Xor(Word(0xf9, 0x6c, 0x32, 0xbc)) == Word(0x6e, 0xd2, 0x75, 0x32)
    ensures Word(0x75, 0x47, 0xd6, 0x91).Xor(Word(0xfd, 0x05, 0x8d, 0xfd)) == Word(0x88, 0x42, 0x5b, 0x6c)
  {
  }

  lemma C1Round4()
    ensures Turn(C1States(3), C1Keys(4)) == C1States(4)
  {
    hide SubWord, MixColumn, Word.Xor;
    C1Sub4();
    C1Add4();
    TurnColumns(C1States(3), C1Keys(4));
  }

  lemma C1Sub5()
    ensures SubWord(Word(0x24, 0x66, 0x75, 0x6c)) == Word(0x36, 0x33, 0x9d, 0x50)
    ensures SubWord(Word(0x69, 0xd2, 0x5b, 0x23)) == Word(0xf9, 0xb5, 0x39, 0x26)
    ensures SubWord(Word(0x6e, 0x42, 0x40, 0xfa)) == Word(0x9f, 0x2c, 0x09, 0x2d)
    ensures SubWord(Word(0x88, 0x72, 0xb3, 0x32)) == Word(0xc4, 0x40, 0x6d, 0x23)
  {
  }

  lemma C1Add5()
    ensures MixColumn(Word(0x36, 0x33, 0x9d, 0x50)) == Word(0xf4, 0xbc, 0xd4, 0x54)
    ensures MixColumn(Word(0xf9, 0xb5, 0x39, 0x26)) == Word(0x32, 0xe5, 0x54, 0xd0)
    ensures MixColumn(Word(0x9f, 0x2c, 0x09, 0x2d)) == Word(0x75, 0xf1, 0xd6, 0xc5)
    ensures MixColumn(Word(0xc4, 0x40, 0x6d, 0x23)) == Word(0x1d, 0xd0, 0x3b, 0x3c)
    ensures Word(0xf4, 0xbc, 0xd4, 0x54).Xor(Word(0x3c, 0xaa, 0xa3, 0xe8)) == Word(0xc8, 0x16, 0x77, 0xbc)
    ensures Word(0x32, 0xe5, 0x54, 0xd0).Xor(Word(0xa9, 0x9f, 0x9d, 0xeb)) == Word(0x9b, 0x7a, 0xc9, 0x3b)
    ensures Word(0x75, 0xf1, 0xd6, 0xc5).Xor(Word(0x50, 0xf3, 0xaf, 0x57)) == Word(0x25, 0x02, 0x79, 0x92)
    ensures Word(0x1d, 0xd0, 0x3b, 0x3c).Xor(Word(0xad, 0xf6, 0x22, 0xaa)) == Word(0xb0, 0x26, 0x19, 0x96)
  {
  }

  lemma C1Round5()
    ensures Turn(C1States(4), C1Keys(5)) == C1States(5)
  {
    hide SubWord, MixColumn, Word.Xor;
    C1Sub5();
    C1Add5();
    TurnColumns(C1States(4), C1Keys(5));
  }

  lemma C1Sub6()
    ensures SubWord(Word(0xc8, 0x7a, 0x79, 0x96)) == Word(0xe8, 0xda, 0xb6, 0x90)
    ensures SubWord(Word(0x9b, 0x02, 0x19, 0xbc)) == Word(0x14, 0x77, 0xd4, 0x65)
    ensures SubWord(Word(0x25, 0x26, 0x77, 0x3b)) == Word(0x3f, 0xf7, 0xf5, 0xe2)
    ensures SubWord(Word(0xb0, 0x16, 0xc9, 0x92)) == Word(0xe7, 0x47, 0xdd, 0x4f)
  {
  }

  lemma C1Add6()
    ensures MixColumn(Word(0xe8, 0xda, 0xb6, 0x90)) == Word(0x98, 0x16, 0xee, 0x74)
    ensures MixColumn(Word(0x14, 0x77, 0xd4, 0x65)) == Word(0x00, 0xf8, 0x7f, 0x55)
    ensures MixColumn(Word(0x3f, 0xf7, 0xf5, 0xe2)) == Word(0x6b, 0x2c, 0x04, 0x9c)
    ensures MixColumn(Word(0xe7, 0x47, 0xdd, 0x4f)) == Word(0x8e, 0x5a, 0xd0, 0x36)
    ensures Word(0x98, 0x16, 0xee, 0x74).Xor(Word(0x5e, 0x39, 0x0f, 0x7d)) == Word(0xc6, 0x2f, 0xe1, 0x09)
    ensures Word(0x00, 0xf8, 0x7f, 0x55).Xor(Word(0xf7, 0xa6, 0x92, 0x96)) == Word(0xf7, 0x5e, 0xed, 0xc3)
    ensures Word(0x6b, 0x2c, 0x04, 0x9c).Xor(Word(0xa7, 0x55, 0x3d, 0xc1)) == Word(0xcc, 0x79, 0x39, 0x5d)
    ensures Word(0x8e, 0x5a, 0xd0, 0x36).Xor(Word(0x0a, 0xa3, 0x1f, 0x6b)) == Word(0x84, 0xf9, 0xcf, 0x5d)
  {
  }

  lemma C1Round6()
    ensures Turn(C1States(5), C1Keys(6)) == C1States(6)
  {
    hide SubWord, MixColumn, Word.Xor;
    C1Sub6();
    C1Add6();
    TurnColumns(C1States(5), C1Keys(6));
  }

  lemma C1Sub7()
    ensures SubWord(Word(0xc6, 0x5e, 0x39, 0x5d)) == Word(0xb4, 0x58, 0x12, 0x4c)
    ensures SubWord(Word(0xf7, 0x79, 0xcf, 0x09)) == Word(0x68, 0xb6, 0x8a, 0x01)
    ensures SubWord(Word(0xcc, 0xf9, 0xe1, 0xc3)) == Word(0x4b, 0x99, 0xf8, 0x2e)
    ensures SubWord(Word(0x84, 0x2f, 0xed, 0x5d)) == Word(0x5f, 0x15, 0x55, 0x4c)
  {
  }

  lemma C1Add7()
    ensures MixColumn(Word(0xb4, 0x58, 0x12, 0x4c)) == Word(0xc5, 0x7e, 0x1c, 0x15)
    ensures MixColumn(Word(0x68, 0xb6, 0x8a, 0x01)) == Word(0x9a, 0x9b, 0xd2, 0x86)
    ensures MixColumn(Word(0x4b, 0x99, 0xf8, 0x2e)) == Word(0xf0, 0x5f, 0x4b, 0xe0)
    ensures MixColumn(Word(0x5f, 0x15, 0x55, 0x4c)) == Word(0x98, 0xc6, 0x34, 0x39)
    ensures Word(0xc5, 0x7e, 0x1c, 0x15).Xor(Word(0x14, 0xf9, 0x70, 0x1a)) == Word(0xd1, 0x87, 0x6c, 0x0f)
    ensures Word(0x9a, 0x9b, 0xd2, 0x86).Xor(Word(0xe3, 0x5f, 0xe2, 0x8c)) == Word(0x79, 0xc4, 0x30, 0x0a)
    ensures Word(0xf0, 0x5f, 0x4b, 0xe0).Xor(Word(0x44, 0x0a, 0xdf, 0x4d)) == Word(0xb4, 0x55, 0x94, 0xad)
    ensures Word(0x98, 0xc6, 0x34, 0x39).Xor(Word(0x4e, 0xa9, 0xc0, 0x26)) == Word(0xd6, 0x6f, 0xf4, 0x1f)
  {
  }

  lemma C1Round7()
    ensures Turn(C1States(6), C1Keys(7)) == C1States(7)
  {
    hide SubWord, MixColumn, Word.Xor;
    C1Sub7();
    C1Add7();
    TurnColumns(C1States(6), C1Keys(7));
  }

  lemma C1Sub8()
    ensures SubWord(Word(0xd1, 0xc4, 0x94, 0x1f)) == Word(0x3e, 0x1c, 0x22, 0xc0)
    ensures SubWord(Word(0x79, 0x55, 0xf4, 0x0f)) == Word(0xb6, 0xfc, 0xbf, 0x76)
    ensures SubWord(Word(0xb4, 0x6f, 0x6c, 0x0a)) == Word(0x8d, 0xa8, 0x50, 0x67)
    ensures SubWord(Word(0xd6, 0x87, 0x30, 0xad)) == Word(0xf6, 0x17, 0x04, 0x95)
  {
  }

  lemma C1Add8()
    ensures MixColumn(Word(0x3e, 0x1c, 0x22, 0xc0)) == Word(0xba, 0xa0, 0x3d, 0xe7)
    ensures MixColumn(Word(0xb6, 0xfc, 0xbf, 0x76)) == Word(0xa1, 0xf9, 0xb5, 0x6e)
    ensures MixColumn(Word(0x8d, 0xa8, 0x50, 0x67)) == Word(0xd5, 0x51, 0x2c, 0xba)
    ensures MixColumn(Word(0xf6, 0x17, 0x04, 0x95)) == Word(0x5f, 0x41, 0x4d, 0x23)
    ensures Word(0xba, 0xa0, 0x3d, 0xe7).Xor(Word(0x47, 0x43, 0x87, 0x35)) == Word(0xfd, 0xe3, 0xba, 0xd2)
    ensures Word(0xa1, 0xf9, 0xb5, 0x6e).Xor(Word(0xa4, 0x1c, 0x65, 0xb9)) == Word(0x05, 0xe5, 0xd0, 0xd7)
    ensures Word(0xd5, 0x51, 0x2c, 0xba).Xor(Word(0xe0, 0x16, 0xba, 0xf4)) == Word(0x35, 0x47, 0x96, 0x4e)
    ensures Word(0x5f, 0x41, 0x4d, 0x23).Xor(Word(0xae, 0xbf, 0x7a, 0xd2)) == Word(0xf1, 0xfe, 0x37, 0xf1)
  {
  }

  lemma C1Round8()
    ensures Turn(C1States(7), C1Keys(8)) == C1States(8)
  {
    hide SubWord, MixColumn, Word.Xor;
    C1Sub8();
    C1Add8();
    TurnColumns(C1States(7), C1Keys(8));
  }

  lemma C1Sub9()
    ensures SubWord(Word(0xfd, 0xe5, 0x96, 0xf1)) == Word(0x54, 0xd9, 0x90, 0xa1)
    ensures SubWord(Word(0x05, 0x47, 0x37, 0xd2)) == Word(0x6b, 0xa0, 0x9a, 0xb5)
    ensures SubWord(Word(0x35, 0xfe, 0xba, 0xd7)) == Word(0x96, 0xbb, 0xf4, 0x0e)
    ensures SubWord(Word(0xf1, 0xe3, 0xd0, 0x4e)) == Word(0xa1, 0x11, 0x70, 0x2f)
  {
  }

  lemma C1Add9()
    ensures MixColumn(Word(0x54, 0xd9, 0x90, 0xa1)) == Word(0xe9, 0xf7, 0x4e, 0xec)
    ensures MixColumn(Word(0x6b, 0xa0, 0x9a, 0xb5)) == Word(0x02, 0x30, 0x20, 0xf6)
    ensures MixColumn(Word(0x96, 0xbb, 0xf4, 0x0e)) == Word(0x1b, 0xf2, 0xcc, 0xf2)
    ensures MixColumn(Word(0xa1, 0x11, 0x70, 0x2f)) == Word(0x35, 0x3c, 0x21, 0xc7)
    ensures Word(0xe9, 0xf7, 0x4e, 0xec).Xor(Word(0x54, 0x99, 0x32, 0xd1)) == Word(0xbd, 0x6e, 0x7c, 0x3d)
    ensures Word(0x02, 0x30, 0x20, 0xf6).Xor(Word(0xf0, 0x85, 0x57, 0x68)) == Word(0xf2, 0xb5, 0x77, 0x9e)
    ensures Word(0x1b, 0xf2, 0xcc, 0xf2).Xor(Word(0x10, 0x93, 0xed, 0x9c)) == Word(0x0b, 0x61, 0x21, 0x6e)
    ensures Word(0x35, 0x3c, 0x21, 0xc7).Xor(Word(0xbe, 0x2c, 0x97, 0x4e)) == Word(0x8b, 0x10, 0xb6, 0x89)
  {
  }

  lemma C1Round9()
    ensures Turn(C1States(8), C1Keys(9)) == C1States(9)
  {
    hide SubWord, MixColumn, Word.Xor;
    C1Sub9();
    C1Add9();
    TurnColumns(C1States(8), C1Keys(9));
  }

  lemma C1Sub10()
    ensures SubWord(Word(0xbd, 0xb5, 0x21, 0x89)) == Word(0x7a, 0xd5, 0xfd, 0xa7)
    ensures SubWord(Word(0xf2, 0x61, 0xb6, 0x3d)) == Word(0x89, 0xef, 0x4e, 0x27)
    ensures SubWord(Word(0x0b, 0x10, 0x7c, 0x9e)) == Word(0x2b, 0xca, 0x10, 0x0b)
    ensures SubWord(Word(0x8b, 0x6e, 0x77, 0x6e)) == Word(0x3d, 0x9f, 0xf5, 0x9f)
  {
  }

  lemma C1Add10()
    ensures Word(0x7a, 0xd5, 0xfd, 0xa7).Xor(Word(0x13, 0x11, 0x1d, 0x7f)) == Word(0x69, 0xc4, 0xe0, 0xd8)
    ensures Word(0x89, 0xef, 0x4e, 0x27).Xor(Word(0xe3, 0x94, 0x4a, 0x17)) == Word(0x6a, 0x7b, 0x04, 0x30)
    ensures Word(0x2b, 0xca, 0x10, 0x0b).Xor(Word(0xf3, 0x07, 0xa7, 0x8b)) == Word(0xd8, 0xcd, 0xb7, 0x80)
    ensures Word(0x3d, 0x9f, 0xf5, 0x9f).Xor(Word(0x4d, 0x2b, 0x30, 0xc5)) == Word(0x70, 0xb4, 0xc5, 0x5a)
  {
  }

  lemma C1Round10()
    ensures LastTurn(C1States(9), C1Keys(10)) == C1States(10)
  {
    hide SubWord, MixColumn, Word.Xor;
    C1Sub10();
    C1Add10();
    LastTurnColumns(C1States(9), C1Keys(10));
  }

  lemma C1Start()
    ensures AddRoundKey(PLAIN_STATE, C1Keys(0)) == C1States(0)
  {
  }

  /** The round keys of the schedule. */
  lemma C1Schedule()
    ensures var keys := Schedule(ToState(KEY), 4, 10);
            keys[0] == C1Keys(0) && keys[1] == C1Keys(1) && keys[2] == C1Keys(2) &&
            keys[3] == C1Keys(3) && keys[4] == C1Keys(4) && keys[5] == C1Keys(5) &&
            keys[6] == C1Keys(6) && keys[7] == C1Keys(7) && keys[8] == C1Keys(8) &&
            keys[9] == C1Keys(9) && keys[10] == C1Keys(10)
  {
    hide Chain, Evolved, Expanded, ToState, C1Keys, FourOf, Schedule;
    var key := ToState(KEY);
    KeyIs();
    FirstWords(key, 0);
    RoundKeyIs(key, 10, 0);
    NextFour(key, 4);
    C1Key1();
    RoundKeyIs(key, 10, 1);
    NextFour(key, 8);
    C1Key2();
    RoundKeyIs(key, 10, 2);
    NextFour(key, 12);
    C1Key3();
    RoundKeyIs(key, 10, 3);
    NextFour(key, 16);
    C1Key4();
    RoundKeyIs(key, 10, 4);
    NextFour(key, 20);
    C1Key5();
    RoundKeyIs(key, 10, 5);
    NextFour(key, 24);
    C1Key6();
    RoundKeyIs(key, 10, 6);
    NextFour(key, 28);
    C1Key7();
    RoundKeyIs(key, 10, 7);
    NextFour(key, 32);
    C1Key8();
    RoundKeyIs(key, 10, 8);
    NextFour(key, 36);
    C1Key9();
    RoundKeyIs(key, 10, 9);
    NextFour(key, 40);
    C1Key10();
    RoundKeyIs(key, 10, 10);
  }

  lemma FirstWords(key: seq<Word>, i: nat)
    requires i + 4 <= |key|
    ensures FourOf(key, i) == key[i..i + 4]
  {
  }

  /** The states of the cipher, and the ciphertext. */
  lemma C1Run()
    ensures var keys := Schedule(ToState(KEY), 4, 10); var s := PLAIN_STATE;
            Forward(keys, s, 0) == C1States(0) && Forward(keys, s, 1) == C1States(1) &&
            Forward(keys, s, 2) == C1States(2) && Forward(keys, s, 3) == C1States(3) &&
            Forward(keys, s, 4) == C1States(4) && Forward(keys, s, 5) == C1States(5) &&
            Forward(keys, s, 6) == C1States(6) && Forward(keys, s, 7) == C1States(7) &&
            Forward(keys, s, 8) == C1States(8) && Forward(keys, s, 9) == C1States(9) &&
            Cipher(keys, s) == C1States(10)
  {
    hide Forward, Cipher, Turn, LastTurn, AddRoundKey, Schedule, ToState, C1Keys, C1States;
    var keys := Schedule(ToState(KEY), 4, 10);
    C1Schedule();
    FirstState(keys, PLAIN_STATE);
    C1Start();
    NextState(keys, PLAIN_STATE, 1);
    C1Round1();
    NextState(keys, PLAIN_STATE, 2);
    C1Round2();
    NextState(keys, PLAIN_STATE, 3);
    C1Round3();
    NextState(keys, PLAIN_STATE, 4);
    C1Round4();
    NextState(keys, PLAIN_STATE, 5);
    C1Round5();
    NextState(keys, PLAIN_STATE, 6);
    C1Round6();
    NextState(keys, PLAIN_STATE, 7);
    C1Round7();
    NextState(keys, PLAIN_STATE, 8);
    C1Round8();
    NextState(keys, PLAIN_STATE, 9);
    C1Round9();
    LastState(keys, PLAIN_STATE);
    C1Round10();
  }
}
