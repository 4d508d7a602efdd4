// The published vectors of FIPS 197 against the two implementations. src/common/vscp-aes.c
// meets them; src/common/rijndael.cpp meets the one for keys of 128 bits and misses the one
// for keys of 256, where the twelfth round reaches a wrong table entry.

module KnownCiphers {
  import opened Gf256
  import opened Fips197
  import opened RijndaelTables
  import opened RijndaelRounds
  import opened Vectors
  import opened VectorC1
  import opened VectorC3
  import A = Aes
  import opened CRijndaelClass

  // ----- Appendix A: key expansion

  lemma NextWord(key: seq<Word>, i: nat)
    requires 0 < |key| <= i
    ensures Expanded(key, i) == Expanded(key, i - |key|).Xor(Evolved(|key|, i, Expanded(key, i - 1)))
  {
  }

  const KEY128: seq<Word> := [
    Word(0x2b, 0x7e, 0x15, 0x16), Word(0x28, 0xae, 0xd2, 0xa6), Word(0xab, 0xf7, 0x15, 0x88),
    Word(0x09, 0xcf, 0x4f, 0x3c)]

  /** Section A.1: the first words after the key. */
  lemma Words128()
    ensures Expanded(KEY128, 4) == Word(0xa0, 0xfa, 0xfe, 0x17)
    ensures Expanded(KEY128, 5) == Word(0x88, 0x54, 0x2c, 0xb1)
  {
    Evolved128At4();
    NextWord(KEY128, 4);
    NextWord(KEY128, 5);
    hide Expanded, SubWord, RotWord, Rcon;
  }

  lemma Evolved128At4()
    ensures Evolved(4, 4, Word(0x09, 0xcf, 0x4f, 0x3c)) == Word(0x8b, 0x84, 0xeb, 0x01)
  {
    assert SubWord(Word(0xcf, 0x4f, 0x3c, 0x09)) == Word(0x8a, 0x84, 0xeb, 0x01);
    Constant1();
    hide SubWord, Rcon;
  }

  const KEY192: seq<Word> := [
    Word(0x8e, 0x73, 0xb0, 0xf7), Word(0xda, 0x0e, 0x64, 0x52), Word(0xc8, 0x10, 0xf3, 0x2b),
    Word(0x80, 0x90, 0x79, 0xe5), Word(0x62, 0xf8, 0xea, 0xd2), Word(0x52, 0x2c, 0x6b, 0x7b)]

  /** Section A.2: the first words after the key. */
  lemma Words192()
    ensures Expanded(KEY192, 6) == Word(0xfe, 0x0c, 0x91, 0xf7)
    ensures Expanded(KEY192, 7) == Word(0x24, 0x02, 0xf5, 0xa5)
    ensures Expanded(KEY192, 8) == Word(0xec, 0x12, 0x06, 0x8e)
    ensures Expanded(KEY192, 9) == Word(0x6c, 0x82, 0x7f, 0x6b)
    ensures Expanded(KEY192, 10) == Word(0x0e, 0x7a, 0x95, 0xb9)
  {
    Evolved192At6();
    NextWord(KEY192, 6);
    NextWord(KEY192, 7);
    NextWord(KEY192, 8);
    NextWord(KEY192, 9);
    NextWord(KEY192, 10);
    hide Expanded, SubWord, RotWord, Rcon;
  }

  lemma Evolved192At6()
    ensures Evolved(6, 6, Word(0x52, 0x2c, 0x6b, 0x7b)) == Word(0x70, 0x7f, 0x21, 0x00)
  {
    assert SubWord(Word(0x2c, 0x6b, 0x7b, 0x52)) == Word(0x71, 0x7f, 0x21, 0x00);
    Constant1();
    hide SubWord, Rcon;
  }

  const KEY256: seq<Word> := [
    Word(0x60, 0x3d, 0xeb, 0x10), Word(0x15, 0xca, 0x71, 0xbe), Word(0x2b, 0x73, 0xae, 0xf0),
    Word(0x85, 0x7d, 0x77, 0x81), Word(0x1f, 0x35, 0x2c, 0x07), Word(0x3b, 0x61, 0x08, 0xd7),
    Word(0x2d, 0x98, 0x10, 0xa3), Word(0x09, 0x14, 0xdf, 0xf4)]

  /** Section A.3: the first words after the key. */
  lemma Words256()
    ensures Expanded(KEY256, 8) == Word(0x9b, 0xa3, 0x54, 0x11)
    ensures Expanded(KEY256, 9) == Word(0x8e, 0x69, 0x25, 0xaf)
    ensures Expanded(KEY256, 10) == Word(0xa5, 0x1a, 0x8b, 0x5f)
    ensures Expanded(KEY256, 11) == Word(0x20, 0x67, 0xfc, 0xde)
    ensures Expanded(KEY256, 12) == Word(0xa8, 0xb0, 0x9c, 0x1a)
  {
    Evolved256At8();
    Evolved256At12();
    NextWord(KEY256, 8);
    NextWord(KEY256, 9);
    NextWord(KEY256, 10);
    NextWord(KEY256, 11);
    NextWord(KEY256, 12);
    hide Expanded, SubWord, RotWord, Rcon;
  }

  lemma Evolved256At8()
    ensures Evolved(8, 8, Word(0x09, 0x14, 0xdf, 0xf4)) == Word(0xfb, 0x9e, 0xbf, 0x01)
  {
    assert SubWord(Word(0x14, 0xdf, 0xf4, 0x09)) == Word(0xfa, 0x9e, 0xbf, 0x01);
    Constant1();
    hide SubWord, Rcon;
  }

  lemma Evolved256At12()
    ensures Evolved(8, 12, Word(0x20, 0x67, 0xfc, 0xde)) == Word(0xb7, 0x85, 0xb0, 0x1d)
  {
    assert SubWord(Word(0x20, 0x67, 0xfc, 0xde)) == Word(0xb7, 0x85, 0xb0, 0x1d);
    hide SubWord, Rcon;
  }

  // ----- src/common/vscp-aes.c

  /** AES of bytes gives the ciphertext of section C.1. */
  lemma AesVector128()
    ensures A.Enciphering(A.KeySchedule(A.Aes128, VectorC1.KEY))(PLAIN) == VectorC1.CIPHERTEXT
  {
    hide Schedule, Cipher, ToState, ToBytes, C1States;
    PlainIs();
    VectorC1.CiphertextIs();
    C1Run();
    ToBytesInverse(VectorC1.CIPHERTEXT);
  }

  /** And that of section C.3. */
  lemma AesVector256()
    ensures A.Enciphering(A.KeySchedule(A.Aes256, VectorC3.KEY))(PLAIN) == VectorC3.CIPHERTEXT
  {
    hide Schedule, Cipher, ToState, ToBytes, C3States;
    PlainIs();
    VectorC3.CiphertextIs();
    C3Run();
    ToBytesInverse(VectorC3.CIPHERTEXT);
  }

  // ----- src/common/rijndael.cpp

  /** No column of the state reaches a wrong entry in enciphering. */
  predicate Avoids(s: State) {
    forall i :: 0 <= i < |s| ==> s[i].b0 != 186 && s[i].b2 != 234
  }

  lemma AvoidsFour(s: State)
    requires |s| == 4 && s[0].b0 != 186 && s[1].b0 != 186 && s[2].b0 != 186 && s[3].b0 != 186
    requires s[0].b2 != 234 && s[1].b2 != 234 && s[2].b2 != 234 && s[3].b2 != 234
    ensures Avoids(s)
  {
  }

  lemma AvoidsHits(s: State)
    requires Columns(|s|) && Avoids(s)
    ensures !HitState(Encrypting, s)
  {
  }

  /** A round from a right state that avoids the wrong entries leaves a right state. */
  lemma CleanRound(keys: seq<State>, s: State, r: nat)
    requires IsSchedule(keys, |s|) && r + 1 < |keys| && TableRun(Encrypting, keys, s, r) == Forward(keys, s, r)
    requires Avoids(Forward(keys, s, r))
    ensures TableRun(Encrypting, keys, s, r + 1) == Forward(keys, s, r + 1)
  {
    var t := Forward(keys, s, r);
    AvoidsHits(t);
    hide TableStep, ExactStep, HitState, AddRoundKey, MixColumns, ShiftRows, SubBytes, TableRun, Forward;
    StepAgrees(Encrypting, t, keys[r + 1]);
    ExactStepEncrypts(t, keys[r + 1]);
    NextRun(Encrypting, keys, s, r);
    NextState(keys, s, r + 1);
  }

  lemma StartsRight(keys: seq<State>, s: State)
    requires IsSchedule(keys, |s|)
    ensures TableRun(Encrypting, keys, s, 0) == Forward(keys, s, 0)
  {
    hide AddRoundKey;
  }

  lemma EndIs(keys: seq<State>, s: State)
    requires IsSchedule(keys, |s|)
    ensures TableCipher(Encrypting, keys, s) == LastTurn(TableRun(Encrypting, keys, s, |keys| - 2), keys[|keys| - 1])
  {
    hide LastStep, TableRun, AddRoundKey, ShiftRows, SubBytes;
    ExactStepEncrypts(TableRun(Encrypting, keys, s, |keys| - 2), keys[|keys| - 1]);
  }

  lemma C1Avoids()
    ensures Avoids(C1States(0))
    ensures Avoids(C1States(1))
    ensures Avoids(C1States(2))
    ensures Avoids(C1States(3))
    ensures Avoids(C1States(4))
    ensures Avoids(C1States(5))
    ensures Avoids(C1States(6))
    ensures Avoids(C1States(7))
    ensures Avoids(C1States(8))
  {
    AvoidsFour(C1States(0));
    AvoidsFour(C1States(1));
    AvoidsFour(C1States(2));
    AvoidsFour(C1States(3));
    AvoidsFour(C1States(4));
    AvoidsFour(C1States(5));
    AvoidsFour(C1States(6));
    AvoidsFour(C1States(7));
    AvoidsFour(C1States(8));
    hide Avoids;
  }

  lemma ClassRun128()
    ensures TableCipher(Encrypting, Schedule(ToState(VectorC1.KEY), 4, 10), PLAIN_STATE) == C1States(10)
  {
    hide Forward, TableRun, TableCipher, Turn, LastTurn, Schedule, ToState, C1Keys, C1States, Avoids;
    var keys := Schedule(ToState(VectorC1.KEY), 4, 10);
    C1Run();
    C1Avoids();
    StartsRight(keys, PLAIN_STATE);
    CleanRound(keys, PLAIN_STATE, 0);
    CleanRound(keys, PLAIN_STATE, 1);
    CleanRound(keys, PLAIN_STATE, 2);
    CleanRound(keys, PLAIN_STATE, 3);
    CleanRound(keys, PLAIN_STATE, 4);
    CleanRound(keys, PLAIN_STATE, 5);
    CleanRound(keys, PLAIN_STATE, 6);
    CleanRound(keys, PLAIN_STATE, 7);
    CleanRound(keys, PLAIN_STATE, 8);
    EndIs(keys, PLAIN_STATE);
    LastState(keys, PLAIN_STATE);
  }

  /** The class gives the ciphertext of section C.1. */
  lemma ClassVector128()
    ensures var keys := Schedule(ToState(VectorC1.KEY), 4, Rounds(16, 16));
            Permute(Encrypting, keys, 16)(PLAIN) == VectorC1.CIPHERTEXT
  {
    hide Schedule, TableCipher, ToState, ToBytes, C1States;
    PlainIs();
    VectorC1.CiphertextIs();
    ClassRun128();
    ToBytesInverse(VectorC1.CIPHERTEXT);
  }

  lemma C3Avoids()
    ensures Avoids(C3States(0))
    ensures Avoids(C3States(1))
    ensures Avoids(C3States(2))
    ensures Avoids(C3States(3))
    ensures Avoids(C3States(4))
    ensures Avoids(C3States(5))
    ensures Avoids(C3States(6))
    ensures Avoids(C3States(7))
    ensures Avoids(C3States(8))
    ensures Avoids(C3States(9))
    ensures Avoids(C3States(10))
  {
    AvoidsFour(C3States(0));
    AvoidsFour(C3States(1));
    AvoidsFour(C3States(2));
    AvoidsFour(C3States(3));
    AvoidsFour(C3States(4));
    AvoidsFour(C3States(5));
    AvoidsFour(C3States(6));
    AvoidsFour(C3States(7));
    AvoidsFour(C3States(8));
    AvoidsFour(C3States(9));
    AvoidsFour(C3States(10));
    hide Avoids;
  }

  /** What the class has after twelve rounds, thirteen, and all of them. */
  function WrongStates(r: nat): (s: State)
    ensures |s| == 4
  {
    match r
    case 0 =>
      [Word(0x51, 0x66, 0x04, 0x95), Word(0x43, 0x54, 0x0c, 0x63),
       Word(0x14, 0xfb, 0x86, 0xe4), Word(0x01, 0x92, 0x25, 0x21)]
    case 1 =>
      [Word(0x2e, 0xfa, 0x03, 0x74), Word(0x99, 0x9d, 0x5a, 0xaa),
       Word(0x49, 0xc5, 0x77, 0xef), Word(0xf7, 0x92, 0xde, 0x71)]
    case _ =>
      [Word(0x15, 0xa2, 0x8c, 0x6f), Word(0x51, 0xaf, 0x64, 0x7b),
       Word(0x0c, 0x55, 0xb9, 0x90), Word(0x05, 0x45, 0x60, 0xe9)]
  }

  lemma WrongSub13()
    ensures SubWord(Word(0x51, 0x54, 0x86, 0x21)) == Word(0xd1, 0x20, 0x44, 0xfd)
    ensures SubWord(Word(0x43, 0xfb, 0x25, 0x95)) == Word(0x1a, 0x0f, 0x3f, 0x2a)
    ensures SubWord(Word(0x14, 0x92, 0x04, 0x63)) == Word(0xfa, 0x4f, 0xf2, 0xfb)
    ensures SubWord(Word(0x01, 0x66, 0x0c, 0xe4)) == Word(0x7c, 0x33, 0xfe, 0x69)
  {
  }

  lemma WrongAdd13()
    ensures MixColumn(Word(0xd1, 0x20, 0x44, 0xfd)) == Word(0x60, 0xa0, 0x65, 0xed)
    ensures MixColumn(Word(0x1a, 0x0f, 0x3f, 0x2a)) == Word(0x30, 0x6f, 0x15, 0x4a)
    ensures MixColumn(Word(0xfa, 0x4f, 0xf2, 0xfb)) == Word(0x37, 0x92, 0x5c, 0x45)
    ensures MixColumn(Word(0x7c, 0x33, 0xfe, 0x69)) == Word(0x3a, 0x6a, 0x13, 0x9b)
    ensures Word(0x60, 0xa0, 0x65, 0xed).Xor(Word(0x4e, 0x5a, 0x66, 0x99)) == Word(0x2e, 0xfa, 0x03, 0x74)
    ensures Word(0x30, 0x6f, 0x15, 0x4a).Xor(Word(0xa9, 0xf2, 0x4f, 0xe0)) == Word(0x99, 0x9d, 0x5a, 0xaa)
    ensures Word(0x37, 0x92, 0x5c, 0x45).Xor(Word(0x7e, 0x57, 0x2b, 0xaa)) == Word(0x49, 0xc5, 0x77, 0xef)
    ensures Word(0x3a, 0x6a, 0x13, 0x9b).Xor(Word(0xcd, 0xf8, 0xcd, 0xea)) == Word(0xf7, 0x92, 0xde, 0x71)
  {
  }

  lemma WrongRound13()
    ensures Turn(WrongStates(0), C3Keys(13)) == WrongStates(1)
  {
    hide SubWord, MixColumn, Word.Xor;
    WrongSub13();
    WrongAdd13();
    TurnColumns(WrongStates(0), C3Keys(13));
  }

  lemma WrongSub14()
    ensures SubWord(Word(0x2e, 0x9d, 0x77, 0x71)) == Word(0x31, 0x5e, 0xf5, 0xa3)
    ensures SubWord(Word(0x99, 0xc5, 0xde, 0x74)) == Word(0xee, 0xa6, 0x1d, 0x92)
    ensures SubWord(Word(0x49, 0x92, 0x03, 0xaa)) == Word(0x3b, 0x4f, 0x7b, 0xac)
    ensures SubWord(Word(0xf7, 0xfa, 0x5a, 0xef)) == Word(0x68, 0x2d, 0xbe, 0xdf)
  {
  }

  lemma WrongAdd14()
    ensures Word(0x31, 0x5e, 0xf5, 0xa3).Xor(Word(0x24, 0xfc, 0x79, 0xcc)) == Word(0x15, 0xa2, 0x8c, 0x6f)
    ensures Word(0xee, 0xa6, 0x1d, 0x92).Xor(Word(0xbf, 0x09, 0x79, 0xe9)) == Word(0x51, 0xaf, 0x64, 0x7b)
    ensures Word(0x3b, 0x4f, 0x7b, 0xac).Xor(Word(0x37, 0x1a, 0xc2, 0x3c)) == Word(0x0c, 0x55, 0xb9, 0x90)
    ensures Word(0x68, 0x2d, 0xbe, 0xdf).Xor(Word(0x6d, 0x68, 0xde, 0x36)) == Word(0x05, 0x45, 0x60, 0xe9)
  {
  }

  lemma WrongRound14()
    ensures LastTurn(WrongStates(1), C3Keys(14)) == WrongStates(2)
  {
    hide SubWord, MixColumn, Word.Xor;
    WrongSub14();
    WrongAdd14();
    LastTurnColumns(WrongStates(1), C3Keys(14));
  }

  const WRONG_CIPHERTEXT: seq<bv8> := [
    0x15, 0xa2, 0x8c, 0x6f, 0x51, 0xaf, 0x64, 0x7b, 0x0c, 0x55, 0xb9, 0x90, 0x05, 0x45, 0x60, 0xe9]

  lemma WrongCiphertextIs()
    ensures ToState(WRONG_CIPHERTEXT) == WrongStates(2)
  {
  }

  lemma CiphertextsDiffer()
    ensures WRONG_CIPHERTEXT != VectorC3.CIPHERTEXT
  {
    assert WRONG_CIPHERTEXT[0] != VectorC3.CIPHERTEXT[0];
  }

  /** The twelfth round of section C.3 reaches entry 186 of T1 in its second column. */
  lemma TwelfthRound(keys: seq<State>, s: State)
    requires |s| == 4 && IsSchedule(keys, 4) && |keys| == 15 && keys[12] == C3Keys(12)
    requires TableRun(Encrypting, keys, s, 11) == C3States(11)
    ensures TableRun(Encrypting, keys, s, 12) == WrongStates(0)
  {
    hide TableRun, TableStep, C3States, C3Keys, WrongStates;
    NextRun(Encrypting, keys, s, 11);
    WrongStep();
  }

  lemma WrongStep()
    ensures TableStep(Encrypting, C3States(11), C3Keys(12)) == WrongStates(0)
  {
    hide TableStep, WithError;
    WrongColumns();
    StepErrors(C3States(11), C3Keys(12));
  }

  /** What four lookups give, column by column. */
  lemma StepErrors(s: State, k: State)
    requires |s| == 4 && |k| == 4
    ensures TableStep(Encrypting, s, k) ==
            [WithError(Word(s[0].b0, s[1].b1, s[2].b2, s[3].b3), k[0]),
             WithError(Word(s[1].b0, s[2].b1, s[3].b2, s[0].b3), k[1]),
             WithError(Word(s[2].b0, s[3].b1, s[0].b2, s[1].b3), k[2]),
             WithError(Word(s[3].b0, s[0].b1, s[1].b2, s[2].b3), k[3])]
  {
    hide LookUp, Unpack, Exact, Error, Word.Xor;
    forall w: Word ensures Unpack(LookUp(Encrypting, w)) == Exact(Encrypting, w).Xor(Error(Encrypting, w)) {
      LookUpError(Encrypting, w);
    }
  }

  function WithError(w: Word, k: Word): Word {
    Exact(Encrypting, w).Xor(Error(Encrypting, w)).Xor(k)
  }

  lemma WrongColumns()
    ensures WithError(Word(0x5f, 0xc6, 0x9f, 0x53), Word(0x25, 0x41, 0xfe, 0x71)) == Word(0x51, 0x66, 0x04, 0x95)
    ensures WithError(Word(0xba, 0x40, 0x76, 0xbf), Word(0x9b, 0xf5, 0x00, 0x25)) == Word(0x43, 0x54, 0x0c, 0x63)
    ensures WithError(Word(0x50, 0x67, 0x6a, 0xaa), Word(0x88, 0x13, 0xbb, 0xd5)) == Word(0x14, 0xfb, 0x86, 0xe4)
    ensures WithError(Word(0x66, 0x9c, 0x34, 0xa7), Word(0x5a, 0x72, 0x1c, 0x0a)) == Word(0x01, 0x92, 0x25, 0x21)
  {
    WrongErrors();
    C3Sub12();
    C3Add12();
    hide SubWord, MixColumn, Error;
  }

  lemma WrongErrors()
    ensures Error(Encrypting, Word(0x5f, 0xc6, 0x9f, 0x53)) == NO_ERROR
    ensures Error(Encrypting, Word(0xba, 0x40, 0x76, 0xbf)) == E1
    ensures Error(Encrypting, Word(0x50, 0x67, 0x6a, 0xaa)) == NO_ERROR
    ensures Error(Encrypting, Word(0x66, 0x9c, 0x34, 0xa7)) == NO_ERROR
  {
  }

  lemma ClassRun256()
    ensures TableCipher(Encrypting, Schedule(ToState(VectorC3.KEY), 4, 14), PLAIN_STATE) == WrongStates(2)
  {
    WrongAvoids();
    hide Forward, TableRun, TableCipher, Turn, LastTurn, Schedule, ToState, C3Keys, C3States, WrongStates, Avoids;
    var keys := Schedule(ToState(VectorC3.KEY), 4, 14);
    C3Run();
    C3Schedule();
    C3Avoids();
    StartsRight(keys, PLAIN_STATE);
    CleanRound(keys, PLAIN_STATE, 0);
    CleanRound(keys, PLAIN_STATE, 1);
    CleanRound(keys, PLAIN_STATE, 2);
    CleanRound(keys, PLAIN_STATE, 3);
    CleanRound(keys, PLAIN_STATE, 4);
    CleanRound(keys, PLAIN_STATE, 5);
    CleanRound(keys, PLAIN_STATE, 6);
    CleanRound(keys, PLAIN_STATE, 7);
    CleanRound(keys, PLAIN_STATE, 8);
    CleanRound(keys, PLAIN_STATE, 9);
    CleanRound(keys, PLAIN_STATE, 10);
    TwelfthRound(keys, PLAIN_STATE);
    RightTurn(keys, PLAIN_STATE, 12);
    WrongRound13();
    EndIs(keys, PLAIN_STATE);
    WrongRound14();
  }

  lemma WrongAvoids()
    ensures Avoids(WrongStates(0))
  {
    AvoidsFour(WrongStates(0));
    hide Avoids;
  }

  /** A round that avoids the wrong entries is one of FIPS 197, whatever state it starts from. */
  lemma RightTurn(keys: seq<State>, s: State, r: nat)
    requires IsSchedule(keys, |s|) && r + 1 < |keys| && Avoids(TableRun(Encrypting, keys, s, r))
    ensures TableRun(Encrypting, keys, s, r + 1) == Turn(TableRun(Encrypting, keys, s, r), keys[r + 1])
  {
    var t := TableRun(Encrypting, keys, s, r);
    AvoidsHits(t);
    hide TableStep, ExactStep, HitState, AddRoundKey, MixColumns, ShiftRows, SubBytes, TableRun;
    StepAgrees(Encrypting, t, keys[r + 1]);
    ExactStepEncrypts(t, keys[r + 1]);
    NextRun(Encrypting, keys, s, r);
  }

  /** The class does not give the ciphertext of section C.3. */
  lemma ClassVector256()
    ensures var keys := Schedule(ToState(VectorC3.KEY), 4, Rounds(32, 16));
            Permute(Encrypting, keys, 16)(PLAIN) == WRONG_CIPHERTEXT != VectorC3.CIPHERTEXT
  {
    hide Schedule, TableCipher, ToState, ToBytes, WrongStates, C3States;
    PlainIs();
    WrongCiphertextIs();
    CiphertextsDiffer();
    ClassRun256();
    ToBytesInverse(WRONG_CIPHERTEXT);
  }
}
