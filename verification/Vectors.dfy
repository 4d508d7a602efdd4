// What the test vectors of FIPS 197 are told in: states and round keys as words, written as
// appendix C writes them, and the steps from one line of that appendix to the next.

module Vectors {
  import opened Gf256
  import opened SBox
  import opened Fips197

  /** The plaintext of every vector of appendix C. */
  const PLAIN: seq<bv8> := [
    0x00, 0x11, 0x22, 0x33, 0x44, 0x55, 0x66, 0x77, 0x88, 0x99, 0xaa, 0xbb, 0xcc, 0xdd, 0xee, 0xff]
  const PLAIN_STATE: State :=
    [Word(0x00, 0x11, 0x22, 0x33), Word(0x44, 0x55, 0x66, 0x77),
     Word(0x88, 0x99, 0xaa, 0xbb), Word(0xcc, 0xdd, 0xee, 0xff)]

  lemma PlainIs()
    ensures ToState(PLAIN) == PLAIN_STATE
  {
  }

  // ----- Round keys

  /** Four words of the schedule, from the four that stand a key length before and what the first of them adds. */
  function Chain(before: State, e: Word): (k: State)
    requires |before| == 4
    ensures |k| == 4
  {
    var k0 := before[0].Xor(e);
    var k1 := before[1].Xor(k0);
    var k2 := before[2].Xor(k1);
    [k0, k1, k2, before[3].Xor(k2)]
  }

  /** Words i to i + 3 of the expanded key. */
  function FourOf(key: seq<Word>, i: nat): (k: State)
    requires |key| > 0
    ensures |k| == 4
  {
    [Expanded(key, i), Expanded(key, i + 1), Expanded(key, i + 2), Expanded(key, i + 3)]
  }

  lemma NextFour(key: seq<Word>, i: nat)
    requires (|key| == 4 || |key| == 8) && i >= |key| && i % 4 == 0
    ensures FourOf(key, i) == Chain(FourOf(key, i - |key|), Evolved(|key|, i, FourOf(key, i - 4)[3]))
  {
    hide SubWord, RotWord, Rcon, Word.Xor;
    var n := |key|;
    InnerWords(n, i);
    assert Expanded(key, i) == Expanded(key, i - n).Xor(Evolved(n, i, Expanded(key, i - 1)));
    assert Expanded(key, i + 1) == Expanded(key, i + 1 - n).Xor(Expanded(key, i));
    assert Expanded(key, i + 2) == Expanded(key, i + 2 - n).Xor(Expanded(key, i + 1));
    assert Expanded(key, i + 3) == Expanded(key, i + 3 - n).Xor(Expanded(key, i + 2));
  }

  lemma InnerWords(n: nat, i: nat)
    requires (n == 4 || n == 8) && i % 4 == 0
    ensures forall j :: i < j < i + 4 ==> j % n != 0 && (n > 6 ==> j % n != 4)
  {
  }

  lemma RoundKeyIs(key: seq<Word>, rounds: nat, r: nat)
    requires |key| > 0 && r <= rounds
    ensures Schedule(key, 4, rounds)[r] == FourOf(key, 4 * r)
  {
    hide Expanded;
  }

  lemma Constant1()
    ensures Rcon(1) == 0x01
  {
  }

  lemma Constant2()
    ensures Rcon(2) == 0x02
  {
    Constant1();
  }

  lemma Constant3()
    ensures Rcon(3) == 0x04
  {
    Constant2();
  }

  lemma Constant4()
    ensures Rcon(4) == 0x08
  {
    Constant3();
  }

  lemma Constant5()
    ensures Rcon(5) == 0x10
  {
    Constant4();
  }

  lemma Constant6()
    ensures Rcon(6) == 0x20
  {
    Constant5();
  }

  lemma Constant7()
    ensures Rcon(7) == 0x40
  {
    Constant6();
  }

  lemma Constant8()
    ensures Rcon(8) == 0x80
  {
    Constant7();
  }

  lemma Constant9()
    ensures Rcon(9) == 0x1b
  {
    Constant8();
  }

  lemma Constant10()
    ensures Rcon(10) == 0x36
  {
    Constant9();
  }

  // ----- Rounds

  function Turn(s: State, k: State): (t: State)
    requires Columns(|s|) && |k| == |s|
    ensures |t| == |s|
  {
    AddRoundKey(MixColumns(ShiftRows(SubBytes(s))), k)
  }

  function LastTurn(s: State, k: State): (t: State)
    requires Columns(|s|) && |k| == |s|
    ensures |t| == |s|
  {
    AddRoundKey(ShiftRows(SubBytes(s)), k)
  }

  /** A round column by column. */
  lemma TurnColumns(s: State, k: State)
    requires |s| == 4 && |k| == 4
    ensures Turn(s, k) ==
            [MixColumn(SubWord(Word(s[0].b0, s[1].b1, s[2].b2, s[3].b3))).Xor(k[0]),
             MixColumn(SubWord(Word(s[1].b0, s[2].b1, s[3].b2, s[0].b3))).Xor(k[1]),
             MixColumn(SubWord(Word(s[2].b0, s[3].b1, s[0].b2, s[1].b3))).Xor(k[2]),
             MixColumn(SubWord(Word(s[3].b0, s[0].b1, s[1].b2, s[2].b3))).Xor(k[3])]
  {
    hide Sub, MixColumn, Word.Xor;
  }

  lemma LastTurnColumns(s: State, k: State)
    requires |s| == 4 && |k| == 4
    ensures LastTurn(s, k) ==
            [SubWord(Word(s[0].b0, s[1].b1, s[2].b2, s[3].b3)).Xor(k[0]),
             SubWord(Word(s[1].b0, s[2].b1, s[3].b2, s[0].b3)).Xor(k[1]),
             SubWord(Word(s[2].b0, s[3].b1, s[0].b2, s[1].b3)).Xor(k[2]),
             SubWord(Word(s[3].b0, s[0].b1, s[1].b2, s[2].b3)).Xor(k[3])]
  {
    hide Sub, Word.Xor;
  }

  lemma FirstState(keys: seq<State>, s: State)
    requires IsSchedule(keys, |s|)
    ensures Forward(keys, s, 0) == AddRoundKey(s, keys[0])
  {
    hide AddRoundKey;
  }

  lemma NextState(keys: seq<State>, s: State, r: nat)
    requires IsSchedule(keys, |s|) && 0 < r < |keys|
    ensures Forward(keys, s, r) == Turn(Forward(keys, s, r - 1), keys[r])
  {
    hide AddRoundKey, MixColumns, ShiftRows, SubBytes;
  }

  lemma LastState(keys: seq<State>, s: State)
    requires IsSchedule(keys, |s|)
    ensures Cipher(keys, s) == LastTurn(Forward(keys, s, |keys| - 2), keys[|keys| - 1])
  {
    hide AddRoundKey, ShiftRows, SubBytes, Forward;
  }
}
