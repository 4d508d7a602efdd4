// The block cipher both implementations are held to: FIPS 197, and for blocks
// of six and eight columns the wider row shifts of the Rijndael proposal.

module Fips197 {
  import opened Gf256
  import opened SBox

  type State = seq<Word>

  function SubWord(w: Word): Word {
    Word(Sub(w.b0), Sub(w.b1), Sub(w.b2), Sub(w.b3))
  }

  function InvSubWord(w: Word): Word {
    Word(InvSub(w.b0), InvSub(w.b1), InvSub(w.b2), InvSub(w.b3))
  }

  function AddRoundKey(s: State, k: State): (t: State)
    requires |s| == |k|
    ensures |t| == |s|
  {
    seq(|s|, i requires 0 <= i < |s| => s[i].Xor(k[i]))
  }

  function SubBytes(s: State): (t: State)
    ensures |t| == |s|
  {
    seq(|s|, i requires 0 <= i < |s| => SubWord(s[i]))
  }

  function InvSubBytes(s: State): (t: State)
    ensures |t| == |s|
  {
    seq(|s|, i requires 0 <= i < |s| => InvSubWord(s[i]))
  }

  function MixColumns(s: State): (t: State)
    ensures |t| == |s|
  {
    seq(|s|, i requires 0 <= i < |s| => MixColumn(s[i]))
  }

  function InvMixColumns(s: State): (t: State)
    ensures |t| == |s|
  {
    seq(|s|, i requires 0 <= i < |s| => InvMixColumn(s[i]))
  }

  predicate Columns(n: nat) {
    n == 4 || n == 6 || n == 8
  }

  /** By how many columns each row moves in a block of n columns. */
  function Offset(n: nat, row: nat): nat
    requires Columns(n) && row < 4
  {
    if n == 8 && row >= 2 then row + 1 else row
  }

  /** The column that column i of a block of n columns draws from when its row shifts left:
      (i + shift) mod n. */
  function Source(i: nat, shift: nat, n: nat): (j: nat)
    requires i < n && shift <= n
    ensures j < n
  {
    if i + shift < n then i + shift else i + shift - n
  }

  /** Every row but the first is rotated to the left. */
  function Rotated(s: State, shift1: nat, shift2: nat, shift3: nat): (t: State)
    requires shift1 <= |s| && shift2 <= |s| && shift3 <= |s|
    ensures |t| == |s|
  {
    seq(|s|, i requires 0 <= i < |s| =>
      Word(s[i].b0, s[Source(i, shift1, |s|)].b1, s[Source(i, shift2, |s|)].b2, s[Source(i, shift3, |s|)].b3))
  }

  function ShiftRows(s: State): (t: State)
    requires Columns(|s|)
    ensures |t| == |s|
  {
    Rotated(s, Offset(|s|, 1), Offset(|s|, 2), Offset(|s|, 3))
  }

  function InvShiftRows(s: State): (t: State)
    requires Columns(|s|)
    ensures |t| == |s|
  {
    Rotated(s, |s| - Offset(|s|, 1), |s| - Offset(|s|, 2), |s| - Offset(|s|, 3))
  }

  // ----- The cipher and its inverse (sections 5.1 and 5.3)

  /** Round keys for blocks of n columns; the number of rounds is one less. */
  predicate IsSchedule(keys: seq<State>, n: nat) {
    Columns(n) && |keys| >= 2 && forall r :: 0 <= r < |keys| ==> |keys[r]| == n
  }

  /** The state after the first r of the rounds that mix columns. */
  function Forward(keys: seq<State>, s: State, r: nat): (t: State)
    requires IsSchedule(keys, |s|) && r < |keys|
    ensures |t| == |s|
  {
    if r == 0 then AddRoundKey(s, keys[0])
    else AddRoundKey(MixColumns(ShiftRows(SubBytes(Forward(keys, s, r - 1)))), keys[r])
  }

  function Cipher(keys: seq<State>, s: State): (t: State)
    requires IsSchedule(keys, |s|)
    ensures |t| == |s|
  {
    AddRoundKey(ShiftRows(SubBytes(Forward(keys, s, |keys| - 2))), keys[|keys| - 1])
  }

  /** The state of the inverse cipher before it undoes the rows and bytes of round r. */
  function Backward(keys: seq<State>, s: State, r: nat): (t: State)
    requires IsSchedule(keys, |s|) && 0 < r < |keys|
    ensures |t| == |s|
    decreases |keys| - r
  {
    if r == |keys| - 1 then AddRoundKey(s, keys[r])
    else InvMixColumns(AddRoundKey(InvSubBytes(InvShiftRows(Backward(keys, s, r + 1))), keys[r]))
  }

  function InvCipher(keys: seq<State>, s: State): (t: State)
    requires IsSchedule(keys, |s|)
    ensures |t| == |s|
  {
    AddRoundKey(InvSubBytes(InvShiftRows(Backward(keys, s, 1))), keys[0])
  }

  // ----- Key expansion (section 5.2)

  function RotWord(w: Word): Word {
    Word(w.b1, w.b2, w.b3, w.b0)
  }

  /** A word with its rows moved down moves back up. */
  lemma RotWordRotates(w: Word)
    ensures RotWord(Rotate(w)) == w && Rotate(RotWord(w)) == w
  {
  }

  /** The round constant x^(i - 1). */
  function Rcon(i: nat): bv8 {
    if i == 0 then 0x8d else XTime(Rcon(i - 1))
  }

  /** What word i of the schedule adds to word i - |key|, given word i - 1. */
  function Evolved(nk: nat, i: nat, previous: Word): Word
    requires 0 < nk <= i
  {
    if i % nk == 0 then
      SubWord(RotWord(previous)).Xor(Word(Rcon(i / nk), 0, 0, 0))
    else if nk > 6 && i % nk == 4 then SubWord(previous)
    else previous
  }

  /** Word i of the expanded key. */
  function Expanded(key: seq<Word>, i: nat): Word
    requires |key| > 0
  {
    if i < |key| then key[i]
    else Expanded(key, i - |key|).Xor(Evolved(|key|, i, Expanded(key, i - 1)))
  }

  /** The expanded key cut into round keys of n columns. */
  function Schedule(key: seq<Word>, n: nat, rounds: nat): (keys: seq<State>)
    requires |key| > 0
    ensures |keys| == rounds + 1
    ensures Columns(n) && rounds > 0 ==> IsSchedule(keys, n)
  {
    seq(rounds + 1, r requires 0 <= r <= rounds => seq(n, j requires 0 <= j < n => Expanded(key, r * n + j)))
  }

  // ----- Deciphering undoes ciphering

  lemma AddRoundKeyTwice(s: State, k: State)
    requires |s| == |k|
    ensures AddRoundKey(AddRoundKey(s, k), k) == s
  {
    forall i | 0 <= i < |s| ensures s[i].Xor(k[i]).Xor(k[i]) == s[i] {
      XorTwice(s[i], k[i]);
    }
  }

  lemma SubWordInverse(w: Word)
    ensures InvSubWord(SubWord(w)) == w
    ensures SubWord(InvSubWord(w)) == w
  {
    hide Sub, InvSub;
    SubInverse(w.b0);
    SubInverse(w.b1);
    SubInverse(w.b2);
    SubInverse(w.b3);
    InvSubInverse(w.b0);
    InvSubInverse(w.b1);
    InvSubInverse(w.b2);
    InvSubInverse(w.b3);
  }

  lemma SubBytesInverse(s: State)
    ensures InvSubBytes(SubBytes(s)) == s
    ensures SubBytes(InvSubBytes(s)) == s
  {
    hide SubWord, InvSubWord;
    forall i | 0 <= i < |s| ensures InvSubWord(SubWord(s[i])) == s[i] == SubWord(InvSubWord(s[i])) {
      SubWordInverse(s[i]);
    }
  }

  lemma MixColumnsInverse(s: State)
    ensures InvMixColumns(MixColumns(s)) == s
    ensures MixColumns(InvMixColumns(s)) == s
  {
    hide MixColumn, InvMixColumn;
    forall i | 0 <= i < |s| ensures InvMixColumn(MixColumn(s[i])) == s[i] == MixColumn(InvMixColumn(s[i])) {
      MixInverse(s[i]);
    }
  }

  lemma SourceInverse(i: nat, shift: nat, n: nat)
    requires i < n && shift <= n
    ensures Source(Source(i, n - shift, n), shift, n) == i == Source(Source(i, shift, n), n - shift, n)
  {
  }

  lemma RotatedInverse(s: State, shift1: nat, shift2: nat, shift3: nat)
    requires shift1 <= |s| && shift2 <= |s| && shift3 <= |s|
    ensures Rotated(Rotated(s, shift1, shift2, shift3), |s| - shift1, |s| - shift2, |s| - shift3) == s
  {
    hide Source;
    var n, t := |s|, Rotated(s, shift1, shift2, shift3);
    forall i | 0 <= i < n ensures Rotated(t, n - shift1, n - shift2, n - shift3)[i] == s[i] {
      SourceInverse(i, shift1, n);
      SourceInverse(i, shift2, n);
      SourceInverse(i, shift3, n);
    }
  }

  lemma ShiftRowsInverse(s: State)
    requires Columns(|s|)
    ensures InvShiftRows(ShiftRows(s)) == s
    ensures ShiftRows(InvShiftRows(s)) == s
  {
    hide Rotated;
    var n := |s|;
    RotatedInverse(s, Offset(n, 1), Offset(n, 2), Offset(n, 3));
    RotatedInverse(s, n - Offset(n, 1), n - Offset(n, 2), n - Offset(n, 3));
  }

  lemma {:induction false} BackwardIsForward(keys: seq<State>, s: State, r: nat)
    requires IsSchedule(keys, |s|) && 0 < r < |keys|
    ensures Backward(keys, Cipher(keys, s), r) == ShiftRows(SubBytes(Forward(keys, s, r - 1)))
    decreases |keys| - r
  {
    hide AddRoundKey, ShiftRows, SubBytes, MixColumns, InvShiftRows, InvSubBytes, InvMixColumns;
    var t := ShiftRows(SubBytes(Forward(keys, s, r - 1)));
    if r == |keys| - 1 {
      AddRoundKeyTwice(t, keys[r]);
    } else {
      BackwardIsForward(keys, s, r + 1);
      ShiftRowsInverse(SubBytes(Forward(keys, s, r)));
      SubBytesInverse(Forward(keys, s, r));
      AddRoundKeyTwice(MixColumns(t), keys[r]);
      MixColumnsInverse(t);
    }
  }

  lemma InvCipherUndoesCipher(keys: seq<State>, s: State)
    requires IsSchedule(keys, |s|)
    ensures InvCipher(keys, Cipher(keys, s)) == s
  {
    hide AddRoundKey, ShiftRows, SubBytes, InvShiftRows, InvSubBytes;
    BackwardIsForward(keys, s, 1);
    ShiftRowsInverse(SubBytes(Forward(keys, s, 0)));
    SubBytesInverse(Forward(keys, s, 0));
    AddRoundKeyTwice(s, keys[0]);
  }

  lemma {:induction false} ForwardIsBackward(keys: seq<State>, c: State, r: nat)
    requires IsSchedule(keys, |c|) && 0 < r < |keys|
    ensures ShiftRows(SubBytes(Forward(keys, InvCipher(keys, c), r - 1))) == Backward(keys, c, r)
  {
    hide AddRoundKey, ShiftRows, SubBytes, MixColumns, InvShiftRows, InvSubBytes, InvMixColumns;
    var t := InvShiftRows(Backward(keys, c, r));
    ShiftRowsInverse(Backward(keys, c, r));
    SubBytesInverse(t);
    if r == 1 {
      AddRoundKeyTwice(InvSubBytes(t), keys[0]);
    } else {
      ForwardIsBackward(keys, c, r - 1);
      MixColumnsInverse(AddRoundKey(InvSubBytes(t), keys[r - 1]));
      AddRoundKeyTwice(InvSubBytes(t), keys[r - 1]);
    }
  }

  lemma CipherUndoesInvCipher(keys: seq<State>, c: State)
    requires IsSchedule(keys, |c|)
    ensures Cipher(keys, InvCipher(keys, c)) == c
  {
    hide AddRoundKey, ShiftRows, SubBytes, InvShiftRows, InvSubBytes;
    ForwardIsBackward(keys, c, |keys| - 1);
    AddRoundKeyTwice(c, keys[|keys| - 1]);
  }

  // ----- Blocks of bytes, four to a column

  function ToState(b: seq<bv8>): (s: State)
    ensures |s| == |b| / 4
  {
    seq(|b| / 4, i requires 0 <= i < |b| / 4 => Word(b[4 * i], b[4 * i + 1], b[4 * i + 2], b[4 * i + 3]))
  }

  function ToBytes(s: State): (b: seq<bv8>)
    ensures |b| == 4 * |s|
  {
    if s == [] then [] else ToBytes(s[..|s| - 1]) + WordBytes(s[|s| - 1])
  }

  function WordBytes(w: Word): seq<bv8> {
    [w.b0, w.b1, w.b2, w.b3]
  }

  lemma {:induction false} ToBytesInverse(b: seq<bv8>)
    requires |b| % 4 == 0
    ensures ToBytes(ToState(b)) == b
  {
    if b != [] {
      var n := |b| - 4;
      ToBytesInverse(b[..n]);
      assert ToState(b)[..|b| / 4 - 1] == ToState(b[..n]);
      assert b == b[..n] + WordBytes(ToState(b)[|b| / 4 - 1]);
    }
  }

  lemma {:induction false} ToStateInverse(s: State)
    ensures ToState(ToBytes(s)) == s
  {
    if s != [] {
      var n := |s| - 1;
      ToStateInverse(s[..n]);
      assert ToState(ToBytes(s)) == ToState(ToBytes(s[..n])) + [s[n]];
      assert s == s[..n] + [s[n]];
    }
  }

}
