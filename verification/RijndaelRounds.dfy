// The rounds of src/common/rijndael.cpp: which blocks its tables encipher and
// decipher as FIPS 197 does, and which they do not.

module RijndaelRounds {
  import opened Gf256
  import opened SBox
  import opened Fips197
  import opened RijndaelTables

  function Rows(d: Direction, s: State): (t: State)
    requires Columns(|s|)
    ensures |t| == |s|
  {
    match d
    case Encrypting => ShiftRows(s)
    case Decrypting => InvShiftRows(s)
  }

  function Substitute(d: Direction, w: Word): Word {
    match d
    case Encrypting => SubWord(w)
    case Decrypting => InvSubWord(w)
  }

  // ----- A run through the tables, and the same run with the right columns

  function TableStep(d: Direction, s: State, k: State): (t: State)
    requires Columns(|s|) && |k| == |s|
    ensures |t| == |s|
  {
    seq(|s|, i requires 0 <= i < |s| => Unpack(LookUp(d, Rows(d, s)[i])).Xor(k[i]))
  }

  function ExactStep(d: Direction, s: State, k: State): (t: State)
    requires Columns(|s|) && |k| == |s|
    ensures |t| == |s|
  {
    seq(|s|, i requires 0 <= i < |s| => Exact(d, Rows(d, s)[i]).Xor(k[i]))
  }

  function LastStep(d: Direction, s: State, k: State): (t: State)
    requires Columns(|s|) && |k| == |s|
    ensures |t| == |s|
  {
    seq(|s|, i requires 0 <= i < |s| => Substitute(d, Rows(d, s)[i]).Xor(k[i]))
  }

  function TableRun(d: Direction, keys: seq<State>, s: State, r: nat): (t: State)
    requires IsSchedule(keys, |s|) && r < |keys|
    ensures |t| == |s|
  {
    if r == 0 then AddRoundKey(s, keys[0]) else TableStep(d, TableRun(d, keys, s, r - 1), keys[r])
  }

  function ExactRun(d: Direction, keys: seq<State>, s: State, r: nat): (t: State)
    requires IsSchedule(keys, |s|) && r < |keys|
    ensures |t| == |s|
  {
    if r == 0 then AddRoundKey(s, keys[0]) else ExactStep(d, ExactRun(d, keys, s, r - 1), keys[r])
  }

  /** What the block routines of the class compute. */
  function TableCipher(d: Direction, keys: seq<State>, s: State): (t: State)
    requires IsSchedule(keys, |s|)
    ensures |t| == |s|
  {
    LastStep(d, TableRun(d, keys, s, |keys| - 2), keys[|keys| - 1])
  }

  function ExactCipher(d: Direction, keys: seq<State>, s: State): (t: State)
    requires IsSchedule(keys, |s|)
    ensures |t| == |s|
  {
    LastStep(d, ExactRun(d, keys, s, |keys| - 2), keys[|keys| - 1])
  }

  // ----- The exact runs are the cipher and the equivalent inverse cipher

  lemma ExactStepEncrypts(s: State, k: State)
    requires Columns(|s|) && |k| == |s|
    ensures ExactStep(Encrypting, s, k) == AddRoundKey(MixColumns(ShiftRows(SubBytes(s))), k)
    ensures LastStep(Encrypting, s, k) == AddRoundKey(ShiftRows(SubBytes(s)), k)
  {
    hide Sub, MixColumn, Word.Xor;
    assert ShiftRows(SubBytes(s)) == SubBytes(ShiftRows(s));
  }

  lemma {:induction false} ExactRunIsForward(keys: seq<State>, s: State, r: nat)
    requires IsSchedule(keys, |s|) && r < |keys|
    ensures ExactRun(Encrypting, keys, s, r) == Forward(keys, s, r)
  {
    hide ExactStep, AddRoundKey, MixColumns, ShiftRows, SubBytes;
    if r > 0 {
      ExactRunIsForward(keys, s, r - 1);
      ExactStepEncrypts(Forward(keys, s, r - 1), keys[r]);
    }
  }

  lemma ExactCipherIsCipher(keys: seq<State>, s: State)
    requires IsSchedule(keys, |s|)
    ensures ExactCipher(Encrypting, keys, s) == Cipher(keys, s)
  {
    hide LastStep, AddRoundKey, ShiftRows, SubBytes;
    ExactRunIsForward(keys, s, |keys| - 2);
    ExactStepEncrypts(Forward(keys, s, |keys| - 2), keys[|keys| - 1]);
  }

  /** Section 5.3.5 of FIPS 197: reversed round keys, all but the outer two inverse mixed. */
  function InverseKeys(keys: seq<State>): (inverse: seq<State>)
    ensures |inverse| == |keys|
    ensures forall n :: IsSchedule(keys, n) ==> IsSchedule(inverse, n)
  {
    seq(|keys|, r requires 0 <= r < |keys| =>
      if r == 0 || r == |keys| - 1 then keys[|keys| - 1 - r] else InvMixColumns(keys[|keys| - 1 - r]))
  }

  lemma ExactStepDecrypts(s: State, k: State)
    requires Columns(|s|) && |k| == |s|
    ensures ExactStep(Decrypting, s, InvMixColumns(k)) == InvMixColumns(AddRoundKey(InvSubBytes(InvShiftRows(s)), k))
    ensures LastStep(Decrypting, s, k) == AddRoundKey(InvSubBytes(InvShiftRows(s)), k)
  {
    hide InvSubWord, InvMixColumn, Word.Xor;
    var t := InvShiftRows(s);
    forall i | 0 <= i < |s|
      ensures InvMixColumn(InvSubWord(t[i]).Xor(k[i])) == InvMixColumn(InvSubWord(t[i])).Xor(InvMixColumn(k[i]))
    {
      InvMixLinear(InvSubWord(t[i]), k[i]);
    }
  }

  lemma InvMixLinear(v: Word, w: Word)
    ensures InvMixColumn(v.Xor(w)) == InvMixColumn(v).Xor(InvMixColumn(w))
  {
    hide Circulant, Word.Xor;
    CirculantLinear(v, w, Word(0xe, 0xb, 0xd, 0x9));
  }

  lemma {:induction false} ExactRunIsBackward(keys: seq<State>, s: State, r: nat)
    requires IsSchedule(keys, |s|) && r < |keys| - 1
    ensures ExactRun(Decrypting, InverseKeys(keys), s, r) == Backward(keys, s, |keys| - 1 - r)
  {
    hide ExactStep, AddRoundKey, InvMixColumns, InvShiftRows, InvSubBytes;
    if r > 0 {
      ExactRunIsBackward(keys, s, r - 1);
      ExactStepDecrypts(Backward(keys, s, |keys| - r), keys[|keys| - 1 - r]);
    }
  }

  lemma EquivalentInverseCipher(keys: seq<State>, s: State)
    requires IsSchedule(keys, |s|)
    ensures ExactCipher(Decrypting, InverseKeys(keys), s) == InvCipher(keys, s)
  {
    hide LastStep, AddRoundKey, InvShiftRows, InvSubBytes;
    ExactRunIsBackward(keys, s, |keys| - 2);
    ExactStepDecrypts(Backward(keys, s, 1), keys[0]);
  }

  // ----- Where the tables agree with FIPS 197

  predicate HitState(d: Direction, s: State)
    requires Columns(|s|)
  {
    exists i | 0 <= i < |s| :: Hit(d, Rows(d, s)[i])
  }

  lemma StepAgrees(d: Direction, s: State, k: State)
    requires Columns(|s|) && |k| == |s|
    ensures TableStep(d, s, k) == ExactStep(d, s, k) <==> !HitState(d, s)
  {
    hide Exact, LookUp, Unpack, Word.Xor, Rows, Hit;
    var t := Rows(d, s);
    forall i | 0 <= i < |s|
      ensures TableStep(d, s, k)[i] == ExactStep(d, s, k)[i] <==> !Hit(d, t[i])
    {
      LookUpExact(d, t[i]);
      XorTwice(Unpack(LookUp(d, t[i])), k[i]);
      XorTwice(Exact(d, t[i]), k[i]);
    }
    if HitState(d, s) {
      var i :| 0 <= i < |s| && Hit(d, t[i]);
      assert TableStep(d, s, k)[i] != ExactStep(d, s, k)[i];
    }
  }

  /** No round of the run looks up a corrupt entry. */
  predicate Clean(d: Direction, keys: seq<State>, s: State)
    requires IsSchedule(keys, |s|)
  {
    forall r | 0 <= r < |keys| - 2 :: !HitState(d, TableRun(d, keys, s, r))
  }

  /** The tables give the right state after every round exactly when no corrupt entry is reached. */
  lemma TraceAgrees(d: Direction, keys: seq<State>, s: State)
    requires IsSchedule(keys, |s|)
    ensures (forall r | 0 <= r < |keys| - 1 :: TableRun(d, keys, s, r) == ExactRun(d, keys, s, r)) <==>
            Clean(d, keys, s)
  {
    hide TableStep, ExactStep, HitState, AddRoundKey;
    if Clean(d, keys, s) {
      CleanPrefix(d, keys, s, |keys| - 2);
    } else {
      var r :| 0 <= r < |keys| - 2 && HitState(d, TableRun(d, keys, s, r));
      StepAgrees(d, TableRun(d, keys, s, r), keys[r + 1]);
      assert TableRun(d, keys, s, r) != ExactRun(d, keys, s, r) ||
             TableRun(d, keys, s, r + 1) != ExactRun(d, keys, s, r + 1);
    }
  }

  lemma {:induction false} CleanPrefix(d: Direction, keys: seq<State>, s: State, n: nat)
    requires IsSchedule(keys, |s|) && n < |keys|
    requires forall r | 0 <= r < n :: !HitState(d, TableRun(d, keys, s, r))
    ensures forall r | 0 <= r <= n :: TableRun(d, keys, s, r) == ExactRun(d, keys, s, r)
  {
    hide TableStep, ExactStep, HitState, AddRoundKey;
    if n > 0 {
      CleanPrefix(d, keys, s, n - 1);
      StepAgrees(d, TableRun(d, keys, s, n - 1), keys[n]);
    }
  }

  // ----- Deciphering what was enciphered

  /** A round key put through the key tables. */
  function DeriveKey(k: State): (t: State)
    ensures |t| == |k|
  {
    seq(|k|, j requires 0 <= j < |k| => Unpack(LookUpKey(k[j])))
  }

  /** The decryption keys as the class derives them, through the key tables. */
  function DecryptionKeys(keys: seq<State>): (inverse: seq<State>)
    ensures |inverse| == |keys|
    ensures forall n :: IsSchedule(keys, n) ==> IsSchedule(inverse, n)
  {
    seq(|keys|, r requires 0 <= r < |keys| =>
      var k := keys[|keys| - 1 - r];
      if r == 0 || r == |keys| - 1 then k else DeriveKey(k))
  }

  /** Deriving a round key reaches a corrupt entry. */
  predicate KeyHitState(k: State) {
    exists j | 0 <= j < |k| :: KeyHit(k[j])
  }

  /** Deriving the decryption keys reaches no corrupt entry. */
  predicate CleanKeys(keys: seq<State>) {
    forall r | 0 < r < |keys| - 1 :: !KeyHitState(keys[r])
  }

  /** One derived round key is right exactly when deriving it reaches no corrupt entry. */
  lemma RoundKeyExact(keys: seq<State>, r: nat)
    requires 0 < r < |keys| - 1
    ensures DecryptionKeys(keys)[r] == InverseKeys(keys)[r] <==> !KeyHitState(keys[|keys| - 1 - r])
  {
    hide Unpack, LookUpKey, InvMixColumn, KeyHit;
    var k, d, e := keys[|keys| - 1 - r], DecryptionKeys(keys)[r], InverseKeys(keys)[r];
    assert d == DeriveKey(k) && e == InvMixColumns(k);
    forall j | 0 <= j < |k|
      ensures d[j] == e[j] <==> !KeyHit(k[j])
    {
      LookUpKeyExact(k[j]);
    }
    if KeyHitState(k) {
      var j :| 0 <= j < |k| && KeyHit(k[j]);
      assert d[j] != e[j];
    }
  }

  lemma OuterKeysExact(keys: seq<State>, r: nat)
    requires r < |keys| && (r == 0 || r == |keys| - 1)
    ensures DecryptionKeys(keys)[r] == InverseKeys(keys)[r]
  {
  }

  lemma DecryptionKeysExact(keys: seq<State>)
    ensures DecryptionKeys(keys) == InverseKeys(keys) <==> CleanKeys(keys)
  {
    hide DecryptionKeys, InverseKeys, KeyHitState;
    var n := |keys|;
    forall r | 0 <= r < n
      ensures DecryptionKeys(keys)[r] == InverseKeys(keys)[r] <==> 0 < r < n - 1 ==> !KeyHitState(keys[n - 1 - r])
    {
      if 0 < r < n - 1 {
        RoundKeyExact(keys, r);
      } else {
        OuterKeysExact(keys, r);
      }
    }
    if !CleanKeys(keys) {
      var r :| 0 < r < n - 1 && KeyHitState(keys[r]);
      assert DecryptionKeys(keys)[n - 1 - r] != InverseKeys(keys)[n - 1 - r];
    } else {
      forall r | 0 <= r < n
        ensures DecryptionKeys(keys)[r] == InverseKeys(keys)[r]
      {
        assert 0 < r < n - 1 ==> 0 < n - 1 - r < n - 1;
      }
    }
  }

  lemma CleanIsExact(d: Direction, keys: seq<State>, s: State)
    requires IsSchedule(keys, |s|) && Clean(d, keys, s)
    ensures TableCipher(d, keys, s) == ExactCipher(d, keys, s)
  {
    hide LastStep, TableRun, ExactRun, HitState;
    CleanPrefix(d, keys, s, |keys| - 2);
  }

  lemma CleanEncryption(keys: seq<State>, s: State)
    requires IsSchedule(keys, |s|) && Clean(Encrypting, keys, s)
    ensures TableCipher(Encrypting, keys, s) == Cipher(keys, s)
  {
    CleanIsExact(Encrypting, keys, s);
    ExactCipherIsCipher(keys, s);
  }

  lemma CleanDecryption(keys: seq<State>, s: State)
    requires IsSchedule(keys, |s|) && CleanKeys(keys) && Clean(Decrypting, DecryptionKeys(keys), s)
    ensures TableCipher(Decrypting, DecryptionKeys(keys), s) == InvCipher(keys, s)
  {
    DecryptionKeysExact(keys);
    CleanIsExact(Decrypting, DecryptionKeys(keys), s);
    EquivalentInverseCipher(keys, s);
  }

  // ----- One hit and no more

  /** A deciphering step written with the transforms of FIPS 197, the key added last. */
  lemma ExactStepTransforms(s: State, k: State)
    requires Columns(|s|) && |k| == |s|
    ensures ExactStep(Decrypting, s, k) == AddRoundKey(InvMixColumns(InvSubBytes(InvShiftRows(s))), k)
    ensures LastStep(Decrypting, s, k) == AddRoundKey(InvSubBytes(InvShiftRows(s)), k)
  {
    hide InvSubWord, InvMixColumn, Word.Xor;
  }

  /** What was before a step, from what is after it. */
  function Undo(d: Direction, s: State, k: State, last: bool): (t: State)
    requires Columns(|s|) && |k| == |s|
    ensures |t| == |s|
  {
    var t := AddRoundKey(s, k);
    match d
    case Encrypting => InvSubBytes(InvShiftRows(if last then t else InvMixColumns(t)))
    case Decrypting => ShiftRows(SubBytes(if last then t else MixColumns(t)))
  }

  lemma StepUndone(d: Direction, s: State, k: State)
    requires Columns(|s|) && |k| == |s|
    ensures Undo(d, ExactStep(d, s, k), k, false) == s
    ensures Undo(d, LastStep(d, s, k), k, true) == s
  {
    hide ExactStep, LastStep, AddRoundKey, MixColumns, InvMixColumns, ShiftRows, InvShiftRows, SubBytes, InvSubBytes;
    if d == Encrypting {
      var t := ShiftRows(SubBytes(s));
      ExactStepEncrypts(s, k);
      AddRoundKeyTwice(MixColumns(t), k);
      AddRoundKeyTwice(t, k);
      MixColumnsInverse(t);
      ShiftRowsInverse(SubBytes(s));
      SubBytesInverse(s);
    } else {
      var t := InvSubBytes(InvShiftRows(s));
      ExactStepTransforms(s, k);
      AddRoundKeyTwice(InvMixColumns(t), k);
      AddRoundKeyTwice(t, k);
      MixColumnsInverse(t);
      SubBytesInverse(InvShiftRows(s));
      ShiftRowsInverse(s);
    }
  }

  /** Different states stay different through a step with the same round key. */
  lemma StepsApart(d: Direction, s: State, t: State, k: State)
    requires Columns(|s|) && |s| == |t| == |k| && s != t
    ensures ExactStep(d, s, k) != ExactStep(d, t, k) && LastStep(d, s, k) != LastStep(d, t, k)
  {
    hide ExactStep, LastStep, Undo;
    StepUndone(d, s, k);
    StepUndone(d, t, k);
  }

  /** The rounds of a run that reach a corrupt entry. */
  function HitRounds(d: Direction, keys: seq<State>, s: State): set<nat>
    requires IsSchedule(keys, |s|)
  {
    set r: nat | 0 <= r < |keys| - 2 && HitState(d, TableRun(d, keys, s, r))
  }

  /** The round keys whose derivation reaches a corrupt entry. */
  function HitKeys(keys: seq<State>): set<nat> {
    set r: nat | 0 < r < |keys| - 1 && KeyHitState(keys[r])
  }

  lemma HitKeyInside(keys: seq<State>, r: nat)
    ensures r in HitKeys(keys) <==> 0 < r < |keys| - 1 && KeyHitState(keys[r])
  {
    hide KeyHitState;
  }

  // ----- Two runs side by side

  /** Round r of two runs: unless it is bad they agree after it exactly when they agree before, and a bad
      round parts them. */
  ghost predicate Follows(y: seq<State>, z: seq<State>, r: nat, bad: bool)
    requires |y| == |z| && r + 1 < |y|
  {
    if y[r] == z[r] then y[r + 1] == z[r + 1] <==> !bad else bad || y[r + 1] != z[r + 1]
  }

  lemma {:induction false} AgreeThroughout(y: seq<State>, z: seq<State>, bad: set<nat>, n: nat)
    requires |y| == |z| && n < |y| && y[0] == z[0] && forall r :: 0 <= r < n ==> Follows(y, z, r, r in bad)
    ensures (forall r :: 0 <= r <= n ==> y[r] == z[r]) <==> forall r :: 0 <= r < n ==> r !in bad
  {
    if n > 0 {
      AgreeThroughout(y, z, bad, n - 1);
      assert Follows(y, z, n - 1, (n - 1) in bad);
    }
  }

  /** With at most one bad round the runs end alike exactly when there is none. */
  lemma {:induction false} OneBadRound(y: seq<State>, z: seq<State>, bad: set<nat>, n: nat)
    requires |y| == |z| && n < |y| && y[0] == z[0] && forall r :: 0 <= r < n ==> Follows(y, z, r, r in bad)
    requires |bad| <= 1
    ensures y[n] == z[n] <==> forall r :: 0 <= r < n ==> r !in bad
  {
    if n > 0 {
      OneBadRound(y, z, bad, n - 1);
      assert Follows(y, z, n - 1, (n - 1) in bad);
      if y[n - 1] != z[n - 1] && (n - 1) in bad {
        var x := OnlyElement(bad);
      }
    }
  }

  lemma OnlyElement(a: set<nat>) returns (x: nat)
    requires |a| == 1
    ensures a == {x}
  {
    x :| x in a;
    assert |a - {x}| == 0;
  }

  lemma NoneBad(bad: set<nat>, n: nat)
    requires forall r :: r in bad ==> r < n
    ensures bad == {} <==> forall r :: 0 <= r < n ==> r !in bad
  {
  }

  function TableTrace(d: Direction, keys: seq<State>, s: State): (trace: seq<State>)
    requires IsSchedule(keys, |s|)
    ensures |trace| == |keys| - 1
    ensures forall r :: 0 <= r < |trace| ==> |trace[r]| == |s| && trace[r] == TableRun(d, keys, s, r)
  {
    seq(|keys| - 1, r requires 0 <= r < |keys| - 1 => TableRun(d, keys, s, r))
  }

  function ExactTrace(d: Direction, keys: seq<State>, s: State): (trace: seq<State>)
    requires IsSchedule(keys, |s|)
    ensures |trace| == |keys| - 1
    ensures forall r :: 0 <= r < |trace| ==> |trace[r]| == |s| && trace[r] == ExactRun(d, keys, s, r)
  {
    seq(|keys| - 1, r requires 0 <= r < |keys| - 1 => ExactRun(d, keys, s, r))
  }

  /** A run through the tables beside an exact one: whether round r is wrong is left to the caller. */
  lemma TableFollows(d: Direction, keys: seq<State>, right: seq<State>, s: State, r: nat, bad: bool)
    requires IsSchedule(keys, |s|) && IsSchedule(right, |s|) && |keys| == |right| && r + 2 < |keys|
    requires TableStep(d, TableRun(d, keys, s, r), keys[r + 1]) == ExactStep(d, TableRun(d, keys, s, r), right[r + 1])
             <==> !bad
    ensures Follows(TableTrace(d, keys, s), ExactTrace(d, right, s), r, bad)
  {
    hide TableStep, ExactStep, AddRoundKey, TableTrace, ExactTrace;
    var t, x := TableRun(d, keys, s, r), ExactRun(d, right, s, r);
    if t != x {
      StepsApart(d, t, x, right[r + 1]);
    }
  }

  /** Two runs that end apart have different results. */
  lemma EndsApart(d: Direction, keys: seq<State>, right: seq<State>, s: State)
    requires IsSchedule(keys, |s|) && IsSchedule(right, |s|) && |keys| == |right|
    requires keys[|keys| - 1] == right[|keys| - 1]
    ensures TableCipher(d, keys, s) == ExactCipher(d, right, s) <==>
            TableTrace(d, keys, s)[|keys| - 2] == ExactTrace(d, right, s)[|keys| - 2]
  {
    hide LastStep, ExactStep, TableRun, ExactRun, TableTrace, ExactTrace;
    var t, x := TableRun(d, keys, s, |keys| - 2), ExactRun(d, right, s, |keys| - 2);
    if t != x {
      StepsApart(d, t, x, keys[|keys| - 1]);
    }
  }

  /** A run that reaches a corrupt entry in exactly one round ends wrongly. */
  lemma OneHitIsWrong(d: Direction, keys: seq<State>, s: State)
    requires IsSchedule(keys, |s|) && |HitRounds(d, keys, s)| == 1
    ensures TableCipher(d, keys, s) != ExactCipher(d, keys, s)
  {
    hide TableStep, ExactStep, TableTrace, ExactTrace, TableRun, ExactRun, TableCipher, ExactCipher, HitState;
    var bad, n := HitRounds(d, keys, s), |keys| - 2;
    forall r | 0 <= r < n
      ensures Follows(TableTrace(d, keys, s), ExactTrace(d, keys, s), r, r in bad)
    {
      StepAgrees(d, TableRun(d, keys, s, r), keys[r + 1]);
      TableFollows(d, keys, keys, s, r, r in bad);
    }
    SameStart(d, keys, keys, s);
    OneBadRound(TableTrace(d, keys, s), ExactTrace(d, keys, s), bad, n);
    NoneBad(bad, n);
    EndsApart(d, keys, keys, s);
  }

  lemma SameStart(d: Direction, keys: seq<State>, right: seq<State>, s: State)
    requires IsSchedule(keys, |s|) && IsSchedule(right, |s|) && |keys| == |right| && keys[0] == right[0]
    ensures TableTrace(d, keys, s)[0] == ExactTrace(d, right, s)[0] == ExactTrace(d, keys, s)[0]
  {
    hide AddRoundKey, TableTrace, ExactTrace;
  }

  // ----- Deciphering under derived keys

  /** The errors of a deciphering step and of its derived key leave some column wrong. */
  predicate NetHitState(s: State, k: State)
    requires Columns(|s|) && |k| == |s|
  {
    exists i | 0 <= i < |s| :: NetHit(Rows(Decrypting, s)[i], k[i])
  }

  lemma NetStepAgrees(s: State, k: State)
    requires Columns(|s|) && |k| == |s|
    ensures TableStep(Decrypting, s, DeriveKey(k)) == ExactStep(Decrypting, s, InvMixColumns(k)) <==>
            !NetHitState(s, k)
  {
    hide Exact, LookUp, LookUpKey, InvMixColumn, Unpack, Word.Xor, Rows, NetHit;
    var t := Rows(Decrypting, s);
    var y, z := TableStep(Decrypting, s, DeriveKey(k)), ExactStep(Decrypting, s, InvMixColumns(k));
    forall i | 0 <= i < |s|
      ensures y[i] == z[i] <==> !NetHit(t[i], k[i])
    {
      NetColumn(t[i], k[i]);
    }
    if NetHitState(s, k) {
      var i :| 0 <= i < |s| && NetHit(t[i], k[i]);
      assert y[i] != z[i];
    }
  }

  lemma NetColumn(w: Word, k: Word)
    ensures Unpack(LookUp(Decrypting, w)).Xor(Unpack(LookUpKey(k))) == Exact(Decrypting, w).Xor(InvMixColumn(k)) <==>
            !NetHit(w, k)
  {
    hide Exact, LookUp, LookUpKey, InvMixColumn, Unpack, Word.Xor, Hit, KeyHit;
    NetLookUpExact(w, k);
  }

  /** The rounds of deciphering c in which errors are left. */
  function NetRounds(keys: seq<State>, c: State): set<nat>
    requires IsSchedule(keys, |c|)
  {
    set r: nat | 0 <= r < |keys| - 2 &&
                 NetHitState(TableRun(Decrypting, DecryptionKeys(keys), c, r), keys[|keys| - 2 - r])
  }

  lemma InnerKey(keys: seq<State>, r: nat)
    requires 0 < r < |keys| - 1
    ensures DecryptionKeys(keys)[r] == DeriveKey(keys[|keys| - 1 - r])
    ensures InverseKeys(keys)[r] == InvMixColumns(keys[|keys| - 1 - r])
  {
    hide DeriveKey, InvMixColumns;
  }

  lemma NetFollows(keys: seq<State>, c: State, r: nat)
    requires IsSchedule(keys, |c|) && r + 2 < |keys|
    ensures Follows(TableTrace(Decrypting, DecryptionKeys(keys), c), ExactTrace(Decrypting, InverseKeys(keys), c), r,
                    r in NetRounds(keys, c))
  {
    hide TableStep, ExactStep, TableTrace, ExactTrace, TableRun, ExactRun, DeriveKey, DecryptionKeys, InverseKeys;
    hide NetHitState, InvMixColumns, Follows;
    InnerKey(keys, r + 1);
    NetStepAgrees(TableRun(Decrypting, DecryptionKeys(keys), c, r), keys[|keys| - 2 - r]);
    TableFollows(Decrypting, DecryptionKeys(keys), InverseKeys(keys), c, r, r in NetRounds(keys, c));
  }

  /** With errors left in at most one round the class deciphers as FIPS 197 does exactly when there is none. */
  lemma AtMostOneNetRound(keys: seq<State>, c: State)
    requires IsSchedule(keys, |c|) && |NetRounds(keys, c)| <= 1
    ensures TableCipher(Decrypting, DecryptionKeys(keys), c) == InvCipher(keys, c) <==> NetRounds(keys, c) == {}
  {
    hide TableTrace, ExactTrace, TableCipher, ExactCipher, InvCipher, DecryptionKeys, InverseKeys, NetHitState,
         TableRun;
    var derived, inverse, n := DecryptionKeys(keys), InverseKeys(keys), |keys| - 2;
    forall r | 0 <= r < n
      ensures Follows(TableTrace(Decrypting, derived, c), ExactTrace(Decrypting, inverse, c), r,
                      r in NetRounds(keys, c))
    {
      NetFollows(keys, c, r);
    }
    OuterKeysExact(keys, 0);
    OuterKeysExact(keys, |keys| - 1);
    SameStart(Decrypting, derived, inverse, c);
    NoneBad(NetRounds(keys, c), n);
    hide NetRounds;
    OneBadRound(TableTrace(Decrypting, derived, c), ExactTrace(Decrypting, inverse, c), NetRounds(keys, c), n);
    EndsApart(Decrypting, derived, inverse, c);
    EquivalentInverseCipher(keys, c);
  }

  /** Every state of deciphering is right exactly when no round leaves errors. */
  lemma NetTraceAgrees(keys: seq<State>, c: State)
    requires IsSchedule(keys, |c|)
    ensures TableTrace(Decrypting, DecryptionKeys(keys), c) == ExactTrace(Decrypting, InverseKeys(keys), c) <==>
            NetRounds(keys, c) == {}
  {
    hide TableTrace, ExactTrace, DecryptionKeys, InverseKeys, NetHitState, TableRun, ExactRun;
    var y, z := TableTrace(Decrypting, DecryptionKeys(keys), c), ExactTrace(Decrypting, InverseKeys(keys), c);
    var n := |keys| - 2;
    forall r | 0 <= r < n
      ensures Follows(y, z, r, r in NetRounds(keys, c))
    {
      NetFollows(keys, c, r);
    }
    OuterKeysExact(keys, 0);
    SameStart(Decrypting, DecryptionKeys(keys), InverseKeys(keys), c);
    NoneBad(NetRounds(keys, c), n);
    hide NetRounds, Follows;
    AgreeThroughout(y, z, NetRounds(keys, c), n);
  }

  /** One wrongly derived round key, with right lookups, makes the deciphering of every state wrong. */
  lemma OneKeyIsWrong(keys: seq<State>, s: State)
    requires IsSchedule(keys, |s|) && |HitKeys(keys)| == 1
    ensures ExactCipher(Decrypting, DecryptionKeys(keys), s) != InvCipher(keys, s)
  {
    hide DecryptionKeys, InverseKeys, ExactCipher, ExactTrace, InvCipher, KeyHitState, ExactRun, ExactStep;
    var h := OnlyElement(HitKeys(keys));
    var n := |keys| - 2;
    var derived, inverse := DecryptionKeys(keys), InverseKeys(keys);
    var y, z := ExactTrace(Decrypting, derived, s), ExactTrace(Decrypting, inverse, s);
    HitKeyInside(keys, h);
    var wrong: set<nat> := {n - h};
    forall r | 0 <= r < n
      ensures Follows(y, z, r, r in wrong)
    {
      KeyFollows(keys, s, r);
      HitKeyInside(keys, n - r);
    }
    OuterKeysExact(keys, 0);
    OuterKeysExact(keys, |keys| - 1);
    SameStart(Decrypting, inverse, derived, s);
    hide Follows, HitKeys;
    OneBadRound(y, z, wrong, n);
    assert n - h in wrong;
    LastApart(Decrypting, derived, inverse, s);
    EquivalentInverseCipher(keys, s);
  }

  lemma LastApart(d: Direction, keys: seq<State>, other: seq<State>, s: State)
    requires IsSchedule(keys, |s|) && IsSchedule(other, |s|) && |keys| == |other|
    requires keys[|keys| - 1] == other[|keys| - 1]
    requires ExactRun(d, keys, s, |keys| - 2) != ExactRun(d, other, s, |keys| - 2)
    ensures ExactCipher(d, keys, s) != ExactCipher(d, other, s)
  {
    hide ExactRun, ExactStep, LastStep;
    StepsApart(d, ExactRun(d, keys, s, |keys| - 2), ExactRun(d, other, s, |keys| - 2), keys[|keys| - 1]);
  }

  /** The exact run under derived keys beside the one under right keys. */
  lemma KeyFollows(keys: seq<State>, s: State, r: nat)
    requires IsSchedule(keys, |s|) && r + 2 < |keys|
    ensures Follows(ExactTrace(Decrypting, DecryptionKeys(keys), s), ExactTrace(Decrypting, InverseKeys(keys), s), r,
                    KeyHitState(keys[|keys| - 2 - r]))
  {
    hide DecryptionKeys, InverseKeys, ExactTrace, ExactStep, AddRoundKey, KeyHitState;
    RoundKeyExact(keys, r + 1);
    var derived, inverse := DecryptionKeys(keys), InverseKeys(keys);
    var y, z := ExactRun(Decrypting, derived, s, r), ExactRun(Decrypting, inverse, s, r);
    if y != z {
      StepsApart(Decrypting, y, z, inverse[r + 1]);
    }
    if derived[r + 1] != inverse[r + 1] {
      KeysApart(Decrypting, y, derived[r + 1], inverse[r + 1]);
    }
  }

  lemma KeysApart(d: Direction, s: State, k: State, other: State)
    requires Columns(|s|) && |k| == |other| == |s| && k != other
    ensures ExactStep(d, s, k) != ExactStep(d, s, other)
  {
    hide Exact, Rows, Word.Xor;
    var i :| 0 <= i < |s| && k[i] != other[i];
    var w := Exact(d, Rows(d, s)[i]);
    XorCommutes(w, k[i]);
    XorCommutes(w, other[i]);
    XorTwice(k[i], w);
    XorTwice(other[i], w);
    assert ExactStep(d, s, k)[i] != ExactStep(d, s, other)[i];
  }

  // ----- When a block comes back

  /** Deciphering with the class gives the block back. */
  predicate ComesBack(keys: seq<State>, s: State)
    requires IsSchedule(keys, |s|)
  {
    TableCipher(Decrypting, DecryptionKeys(keys), TableCipher(Encrypting, keys, s)) == s
  }

  /** When deciphering is right, a block comes back exactly when it was enciphered rightly. */
  lemma RightDeciphering(keys: seq<State>, s: State)
    requires IsSchedule(keys, |s|) && NetRounds(keys, TableCipher(Encrypting, keys, s)) == {}
    ensures ComesBack(keys, s) <==> TableCipher(Encrypting, keys, s) == Cipher(keys, s)
  {
    hide TableCipher, NetRounds, DecryptionKeys, Cipher, InvCipher;
    AtMostOneNetRound(keys, TableCipher(Encrypting, keys, s));
    InvCipherUndoesCipher(keys, s);
    CipherUndoesInvCipher(keys, TableCipher(Encrypting, keys, s));
  }

  /** The deciphering rounds that cannot undo their round of enciphering: either an error was made in
      enciphering, or one is left in deciphering. */
  function BadRounds(keys: seq<State>, s: State): set<nat>
    requires IsSchedule(keys, |s|)
  {
    set r: nat | 0 <= r < |keys| - 2 &&
                 BadRound(TableRun(Encrypting, keys, s, |keys| - 3 - r),
                          TableRun(Decrypting, DecryptionKeys(keys), TableCipher(Encrypting, keys, s), r),
                          keys[|keys| - 2 - r])
  }

  /** x is the state before a round of enciphering, y the one before the round that is to undo it. */
  predicate BadRound(x: State, y: State, k: State)
    requires Columns(|x|) && |x| == |y| == |k|
  {
    HitState(Encrypting, x) || NetHitState(y, k)
  }

  /** What deciphering should have before it undoes the round that began with x. */
  function Mirror(x: State): (y: State)
    requires Columns(|x|)
    ensures |y| == |x|
  {
    ShiftRows(SubBytes(x))
  }

  function MirrorTrace(keys: seq<State>, s: State): (trace: seq<State>)
    requires IsSchedule(keys, |s|)
    ensures |trace| == |keys| - 1 && forall r :: 0 <= r < |trace| ==> |trace[r]| == |s|
  {
    var x := TableTrace(Encrypting, keys, s);
    seq(|x|, r requires 0 <= r < |x| => Mirror(x[|x| - 1 - r]))
  }

  function BackTrace(keys: seq<State>, s: State): (trace: seq<State>)
    requires IsSchedule(keys, |s|)
    ensures |trace| == |keys| - 1 && forall r :: 0 <= r < |trace| ==> |trace[r]| == |s|
  {
    TableTrace(Decrypting, DecryptionKeys(keys), TableCipher(Encrypting, keys, s))
  }

  /** One column of a round and its undoing. */
  lemma MirrorColumn(w: Word, v: Word, k: Word)
    requires InvSubWord(v) == Unpack(LookUp(Encrypting, w)).Xor(k)
    ensures Unpack(LookUp(Decrypting, v)).Xor(Unpack(LookUpKey(k))) == SubWord(w) <==>
            !Hit(Encrypting, w) && !NetHit(v, k)
  {
    hide LookUp, LookUpKey, Unpack, SubWord, InvSubWord, MixColumn, InvMixColumn, Word.Xor, Error, NetError, Hit,
         NetHit;
    var z, e, f := SubWord(w), Error(Encrypting, w), NetError(v, k);
    LookUpError(Encrypting, w);
    NetLookUp(v, k);
    ErrorsDiffer(w, v, k);
    MixInverse(z);
    InvMixLinear(MixColumn(z).Xor(e), k);
    InvMixLinear(MixColumn(z), e);
    XorTwice(z.Xor(InvMixColumn(e)), InvMixColumn(k));
    Cancelled(z, InvMixColumn(e), f);
  }

  lemma Cancelled(z: Word, e: Word, f: Word)
    ensures z.Xor(e).Xor(f) == z <==> e == f
  {
    hide Word.Xor;
    if z.Xor(e).Xor(f) == z {
      XorTwice(z.Xor(e), f);
      XorCommutes(z, e);
      XorCommutes(z, f);
      XorTwice(e, z);
      XorTwice(f, z);
    } else {
      XorTwice(z, e);
    }
  }

  /** Deciphering a round that was enciphered by the tables gives what was there exactly when it is not bad. */
  lemma MirrorStep(x: State, k: State)
    requires Columns(|x|) && |k| == |x|
    ensures var y := Mirror(TableStep(Encrypting, x, k));
            TableStep(Decrypting, y, DeriveKey(k)) == Mirror(x) <==> !BadRound(x, y, k)
  {
    hide LookUp, LookUpKey, Unpack, SubWord, InvSubWord, Word.Xor, NetHit, Hit, ShiftRows, InvShiftRows;
    var next := TableStep(Encrypting, x, k);
    var y := Mirror(next);
    ShiftRowsInverse(SubBytes(next));
    SubBytesInverse(next);
    var v, w, back, was := InvShiftRows(y), ShiftRows(x), TableStep(Decrypting, y, DeriveKey(k)), Mirror(x);
    SubThenRows(x);
    forall i | 0 <= i < |x|
      ensures back[i] == was[i] <==> !Hit(Encrypting, w[i]) && !NetHit(v[i], k[i])
    {
      assert InvSubWord(v[i]) == InvSubBytes(SubBytes(next))[i] == next[i];
      MirrorColumn(w[i], v[i], k[i]);
    }
    if BadRound(x, y, k) {
      var i :| 0 <= i < |x| && (Hit(Encrypting, w[i]) || NetHit(v[i], k[i]));
      assert back[i] != was[i];
    }
  }

  /** In a round that is not bad, deciphering gives the right state only from the right state. */
  lemma MirrorApart(x: State, y: State, k: State)
    requires Columns(|x|) && |k| == |x| == |y| && !BadRound(x, y, k)
    ensures var z := Mirror(TableStep(Encrypting, x, k));
            y != z ==> TableStep(Decrypting, y, DeriveKey(k)) != Mirror(x)
  {
    hide TableStep, ExactStep, DeriveKey, HitState, NetHitState, InvMixColumns, MixColumns, AddRoundKey;
    hide InvSubBytes, InvShiftRows, ShiftRows, SubBytes;
    var z := Mirror(TableStep(Encrypting, x, k));
    StepAgrees(Encrypting, x, k);
    NetStepAgrees(y, k);
    ExactMirror(x, k);
    if y != z {
      StepsApart(Decrypting, y, z, InvMixColumns(k));
    }
  }

  lemma ExactMirror(x: State, k: State)
    requires Columns(|x|) && |k| == |x|
    ensures ExactStep(Decrypting, Mirror(ExactStep(Encrypting, x, k)), InvMixColumns(k)) == Mirror(x)
  {
    hide ExactStep, InvMixColumns, MixColumns, AddRoundKey, InvSubBytes, InvShiftRows, ShiftRows, SubBytes;
    var next, m := ExactStep(Encrypting, x, k), MixColumns(Mirror(x));
    ExactStepEncrypts(x, k);
    SubThenRows(x);
    ShiftRowsInverse(SubBytes(next));
    SubBytesInverse(next);
    ExactStepDecrypts(Mirror(next), k);
    AddRoundKeyTwice(m, k);
    MixColumnsInverse(Mirror(x));
  }

  lemma SubThenRows(x: State)
    requires Columns(|x|)
    ensures ShiftRows(SubBytes(x)) == SubBytes(ShiftRows(x))
  {
    hide Sub;
  }
  lemma BackFollows(keys: seq<State>, s: State, r: nat)
    requires IsSchedule(keys, |s|) && r + 2 < |keys|
    ensures Follows(BackTrace(keys, s), MirrorTrace(keys, s), r, r in BadRounds(keys, s))
  {
    hide TableStep, TableCipher, TableRun, AddRoundKey, DeriveKey, DecryptionKeys, BadRound, Mirror;
    var derived, c, m := DecryptionKeys(keys), TableCipher(Encrypting, keys, s), |keys| - 3 - r;
    var x, k := TableRun(Encrypting, keys, s, m), keys[m + 1];
    var y := TableRun(Decrypting, derived, c, r);
    InnerKey(keys, r + 1);
    NextRun(Encrypting, keys, s, m);
    NextRun(Decrypting, derived, c, r);
    MirrorStep(x, k);
    if r !in BadRounds(keys, s) {
      MirrorApart(x, y, k);
    }
  }

  lemma NextRun(d: Direction, keys: seq<State>, s: State, r: nat)
    requires IsSchedule(keys, |s|) && r + 1 < |keys|
    ensures TableRun(d, keys, s, r + 1) == TableStep(d, TableRun(d, keys, s, r), keys[r + 1])
  {
    hide TableStep, AddRoundKey;
  }

  lemma BackStart(keys: seq<State>, s: State)
    requires IsSchedule(keys, |s|)
    ensures BackTrace(keys, s)[0] == MirrorTrace(keys, s)[0]
  {
    hide TableRun, TableStep, LastStep, AddRoundKey, DecryptionKeys, BackTrace, MirrorTrace, Mirror;
    OuterKeysExact(keys, 0);
    var x, k := TableRun(Encrypting, keys, s, |keys| - 2), keys[|keys| - 1];
    BackIs(keys, s, 0);
    FromStart(Decrypting, DecryptionKeys(keys), TableCipher(Encrypting, keys, s));
    LastMirrors(x, k);
    AddRoundKeyTwice(Mirror(x), k);
  }

  lemma LastUnmirrors(x: State, k: State)
    requires Columns(|x|) && |k| == |x|
    ensures LastStep(Decrypting, Mirror(x), k) == AddRoundKey(x, k)
  {
    hide LastStep, AddRoundKey, ShiftRows, InvShiftRows, SubBytes, InvSubBytes;
    ExactStepDecrypts(Mirror(x), k);
    ShiftRowsInverse(SubBytes(x));
    SubBytesInverse(x);
  }

  lemma BackEnd(keys: seq<State>, s: State)
    requires IsSchedule(keys, |s|)
    ensures ComesBack(keys, s) <==> BackTrace(keys, s)[|keys| - 2] == MirrorTrace(keys, s)[|keys| - 2]
  {
    hide TableRun, TableStep, ExactStep, LastStep, AddRoundKey, DecryptionKeys, BackTrace, MirrorTrace, Mirror;
    OuterKeysExact(keys, |keys| - 1);
    var y, x := BackTrace(keys, s)[|keys| - 2], TableRun(Encrypting, keys, s, 0);
    BackIs(keys, s, |keys| - 2);
    FromStart(Encrypting, keys, s);
    LastUnmirrors(x, keys[0]);
    AddRoundKeyTwice(s, keys[0]);
    if y != Mirror(x) {
      StepsApart(Decrypting, y, Mirror(x), keys[0]);
    }
  }

  /** Deciphering goes back over every state of enciphering exactly when no round is bad. */
  lemma Retraces(keys: seq<State>, s: State)
    requires IsSchedule(keys, |s|)
    ensures BackTrace(keys, s) == MirrorTrace(keys, s) <==> BadRounds(keys, s) == {}
  {
    hide BackTrace, MirrorTrace, BadRound, Follows, TableRun, TableCipher, DecryptionKeys;
    var bad, n := BadRounds(keys, s), |keys| - 2;
    forall r | 0 <= r < n
      ensures Follows(BackTrace(keys, s), MirrorTrace(keys, s), r, r in bad)
    {
      BackFollows(keys, s, r);
    }
    BackStart(keys, s);
    NoneBad(bad, n);
    hide BadRounds;
    AgreeThroughout(BackTrace(keys, s), MirrorTrace(keys, s), bad, n);
  }

  /** A block with at most one bad round comes back exactly when it has none. */
  lemma AtMostOneBadRound(keys: seq<State>, s: State)
    requires IsSchedule(keys, |s|) && |BadRounds(keys, s)| <= 1
    ensures ComesBack(keys, s) <==> BadRounds(keys, s) == {}
  {
    hide BackTrace, MirrorTrace, BadRound, Follows, TableRun, TableCipher, DecryptionKeys, ComesBack;
    var bad, n := BadRounds(keys, s), |keys| - 2;
    forall r | 0 <= r < n
      ensures Follows(BackTrace(keys, s), MirrorTrace(keys, s), r, r in bad)
    {
      BackFollows(keys, s, r);
    }
    BackStart(keys, s);
    NoneBad(bad, n);
    hide BadRounds;
    OneBadRound(BackTrace(keys, s), MirrorTrace(keys, s), bad, n);
    BackEnd(keys, s);
  }

  /** The hits of enciphering a block, and the rounds of deciphering it that leave errors. */
  function Hits(keys: seq<State>, s: State): nat
    requires IsSchedule(keys, |s|)
  {
    |HitRounds(Encrypting, keys, s)| + |NetRounds(keys, TableCipher(Encrypting, keys, s))|
  }

  lemma BadRoundsAre(keys: seq<State>, s: State, r: nat)
    requires IsSchedule(keys, |s|)
    ensures r in BadRounds(keys, s) <==>
            r + 2 < |keys| && ((|keys| - 3 - r) in HitRounds(Encrypting, keys, s) ||
                               r in NetRounds(keys, TableCipher(Encrypting, keys, s)))
  {
    hide HitState, NetHitState, TableRun, TableCipher, DecryptionKeys;
  }

  lemma HitRoundBelow(d: Direction, keys: seq<State>, s: State, r: nat)
    requires IsSchedule(keys, |s|) && r in HitRounds(d, keys, s)
    ensures r + 2 < |keys|
  {
    hide HitState, TableRun;
  }

  lemma NetRoundBelow(keys: seq<State>, c: State, r: nat)
    requires IsSchedule(keys, |c|) && r in NetRounds(keys, c)
    ensures r + 2 < |keys|
  {
    hide NetHitState, TableRun, DecryptionKeys;
  }

  /** A block with no hit comes back, and a block with a single hit does not. */
  lemma AtMostOneHit(keys: seq<State>, s: State)
    requires IsSchedule(keys, |s|) && Hits(keys, s) <= 1
    ensures ComesBack(keys, s) <==> Hits(keys, s) == 0
  {
    hide ComesBack, BadRounds, HitRounds, NetRounds, TableCipher;
    var bad, m := BadRounds(keys, s), |keys| - 3;
    var enc, net := HitRounds(Encrypting, keys, s), NetRounds(keys, TableCipher(Encrypting, keys, s));
    forall r: nat
      ensures r in bad <==> r <= m && ((m - r) in enc || r in net)
    {
      BadRoundsAre(keys, s, r);
    }
    if |enc| == 1 {
      var x := OnlyElement(enc);
      HitRoundBelow(Encrypting, keys, s, x);
      assert bad == {m - x};
    } else if |net| == 1 {
      var x := OnlyElement(net);
      NetRoundBelow(keys, TableCipher(Encrypting, keys, s), x);
      assert bad == {x};
    } else {
      assert bad == {};
    }
    AtMostOneBadRound(keys, s);
  }

  // ----- What more than one hit can do

  /** The state with the same column everywhere, which row shifting leaves alone. */
  function Uniform(n: nat, w: Word): (s: State)
    ensures |s| == n && forall i :: 0 <= i < n ==> s[i] == w
  {
    seq(n, i => w)
  }

  lemma UniformIs(s: State, w: Word)
    requires forall i :: 0 <= i < |s| ==> s[i] == w
    ensures s == Uniform(|s|, w)
  {
  }

  lemma UniformRows(d: Direction, n: nat, w: Word)
    requires Columns(n)
    ensures Rows(d, Uniform(n, w)) == Uniform(n, w)
  {
    UniformIs(Rows(d, Uniform(n, w)), w);
  }

  lemma UniformStep(d: Direction, n: nat, w: Word, k: Word)
    requires Columns(n)
    ensures TableStep(d, Uniform(n, w), Uniform(n, k)) == Uniform(n, Unpack(LookUp(d, w)).Xor(k))
    ensures Mirror(Uniform(n, w)) == Uniform(n, SubWord(w))
    ensures DeriveKey(Uniform(n, k)) == Uniform(n, Unpack(LookUpKey(k)))
    ensures AddRoundKey(Uniform(n, w), Uniform(n, k)) == Uniform(n, w.Xor(k))
  {
    hide LookUp, LookUpKey, Unpack, SubWord, Word.Xor, Uniform, Rows, ShiftRows;
    UniformRows(d, n, w);
    UniformRows(Encrypting, n, SubWord(w));
    UniformIs(TableStep(d, Uniform(n, w), Uniform(n, k)), Unpack(LookUp(d, w)).Xor(k));
    UniformIs(SubBytes(Uniform(n, w)), SubWord(w));
    UniformIs(DeriveKey(Uniform(n, k)), Unpack(LookUpKey(k)));
    UniformIs(AddRoundKey(Uniform(n, w), Uniform(n, k)), w.Xor(k));
    RowsForward(Uniform(n, SubWord(w)));
  }

  lemma RowsForward(s: State)
    requires Columns(|s|)
    ensures Rows(Encrypting, s) == ShiftRows(s)
  {
    hide ShiftRows;
  }

  lemma UniformHits(n: nat, w: Word, k: Word)
    requires Columns(n)
    ensures HitState(Encrypting, Uniform(n, w)) <==> Hit(Encrypting, w)
    ensures HitState(Decrypting, Uniform(n, w)) <==> Hit(Decrypting, w)
    ensures NetHitState(Uniform(n, w), Uniform(n, k)) <==> NetHit(w, k)
    ensures KeyHitState(Uniform(n, k)) <==> KeyHit(k)
  {
    hide Hit, NetHit, KeyHit, Rows, Uniform;
    UniformRows(Encrypting, n, w);
    UniformRows(Decrypting, n, w);
    assert Uniform(n, w)[0] == w && Uniform(n, k)[0] == k;
  }

  lemma OneRound(keys: seq<State>, c: State)
    requires IsSchedule(keys, |c|) && |keys| == 3
    ensures HitKeys(keys) == {1} <==> KeyHitState(keys[1])
    ensures HitRounds(Decrypting, DecryptionKeys(keys), c) == {0} <==> HitState(Decrypting, AddRoundKey(c, keys[2]))
    ensures NetRounds(keys, c) == {} <==> !NetHitState(AddRoundKey(c, keys[2]), keys[1])
  {
    hide HitState, NetHitState, KeyHitState, AddRoundKey, DecryptionKeys, TableStep;
    OuterKeysExact(keys, 0);
    var start := TableRun(Decrypting, DecryptionKeys(keys), c, 0);
    assert start == AddRoundKey(c, keys[2]);
    hide TableRun;
    assert 1 in HitKeys(keys) <==> KeyHitState(keys[1]);
    assert 0 in HitRounds(Decrypting, DecryptionKeys(keys), c) <==> HitState(Decrypting, start);
    assert 0 in NetRounds(keys, c) <==> NetHitState(start, keys[1]);
  }

  /** A wrongly derived key and a wrong lookup in one round cancel: both are there, and the block is deciphered
      rightly. */
  lemma HitsCancel(n: nat) returns (keys: seq<State>, c: State)
    requires Columns(n)
    ensures |c| == n && IsSchedule(keys, n) && HitKeys(keys) == {1}
    ensures HitRounds(Decrypting, DecryptionKeys(keys), c) == {0}
    ensures TableCipher(Decrypting, DecryptionKeys(keys), c) == InvCipher(keys, c)
  {
    var zero, k, w := Word(0, 0, 0, 0), Word(0, 161, 0, 0), Word(0, 50, 0, 0);
    hide *;
    CancellingHits();
    keys, c := [Uniform(n, zero), Uniform(n, k), Uniform(n, zero)], Uniform(n, w);
    UniformStep(Decrypting, n, w, zero);
    UniformHits(n, w, k);
    ThreeKeys(keys, n);
    OneRound(keys, c);
    AtMostOneNetRound(keys, c);
  }

  lemma CancellingHits()
    ensures var zero, k, w := Word(0, 0, 0, 0), Word(0, 161, 0, 0), Word(0, 50, 0, 0);
            Hit(Decrypting, w) && KeyHit(k) && !NetHit(w, k) && w.Xor(zero) == w
  {
  }

  lemma ThreeKeys(keys: seq<State>, n: nat)
    requires Columns(n) && |keys| >= 2 && forall k :: k in keys ==> |k| == n
    ensures IsSchedule(keys, n)
  {
  }

  /** The two rounds of TwoBadRoundsCancel, column by column. */
  lemma CancellingColumns()
    ensures SubWord(LEFT) == Word(0xf4, 0x63, 0x63, 0x63)
    ensures SubWord(Word(0, 0x91, 0x29, 0x07)) == Word(0x63, 0x81, 0xa5, 0xc5)
    ensures SubWord(Word(0, 0xa1, 0, 0)) == Word(0x63, 0x32, 0x63, 0x63)
    ensures InvSubWord(Word(0x63, 0x90, 0xe7, 0x85)) == Word(0, 0x96, 0xb0, 0x67)
    ensures InvSubWord(Word(0x63, 0x32, 0x63, 0x63)) == Word(0, 0xa1, 0, 0)
  {
  }

  lemma CancellingProducts()
    ensures MixColumn(Word(0x63, 0x81, 0xa5, 0xc5)) == Word(0x3e, 0x4b, 0xe7, 0x10)
    ensures InvMixColumn(Word(0, 0xa1, 0, 0)).Xor(InvMixColumn(Word(0x3e, 0xea, 0xe7, 0x10))) ==
            Word(0x63, 0x81, 0xa5, 0xc5)
    ensures InvMixColumn(Word(0, 0x96, 0xb0, 0x67)).Xor(InvMixColumn(Word(0x56, 0x62, 0x44, 0xa6))) ==
            Word(0xf4, 0x63, 0x63, 0x63)
  {
  }

  // The columns of the round keys, of the states of enciphering and of those of deciphering.
  const CANCELLING_KEYS :=
    [Word(0, 0, 0, 0), Word(0x56, 0x62, 0x44, 0xa6), Word(0x3e, 0xea, 0xe7, 0x10), Word(0, 0, 0, 0)]
  const CANCELLING_RUN := [LEFT, Word(0, 0x91, 0x29, 0x07), Word(0, 0xa1, 0, 0)]
  const CANCELLING_BACK := [Word(0x63, 0x32, 0x63, 0x63), Word(0x63, 0x90, 0xe7, 0x85), Word(0xf4, 0x63, 0x63, 0x63)]

  lemma CancellingSums()
    ensures Word(0x56, 0xf4, 0xf4, 0xc1).Xor(Error(Encrypting, LEFT)).Xor(CANCELLING_KEYS[1]) == CANCELLING_RUN[1]
    ensures Word(0x3e, 0x4b, 0xe7, 0x10).Xor(Error(Encrypting, CANCELLING_RUN[1])).Xor(CANCELLING_KEYS[2]) ==
            CANCELLING_RUN[2]
    ensures Word(0x63, 0x81, 0xa5, 0xc5).Xor(NetError(CANCELLING_BACK[0], CANCELLING_KEYS[2])) == CANCELLING_BACK[1]
    ensures CANCELLING_BACK[2].Xor(NetError(CANCELLING_BACK[1], CANCELLING_KEYS[1])) == CANCELLING_BACK[2]
  {
  }

  lemma CancellingLookUps()
    ensures Unpack(LookUp(Encrypting, LEFT)).Xor(CANCELLING_KEYS[1]) == CANCELLING_RUN[1]
    ensures Unpack(LookUp(Encrypting, CANCELLING_RUN[1])).Xor(CANCELLING_KEYS[2]) == CANCELLING_RUN[2]
    ensures Unpack(LookUp(Decrypting, CANCELLING_BACK[0])).Xor(Unpack(LookUpKey(CANCELLING_KEYS[2]))) ==
            CANCELLING_BACK[1]
    ensures Unpack(LookUp(Decrypting, CANCELLING_BACK[1])).Xor(Unpack(LookUpKey(CANCELLING_KEYS[1]))) ==
            CANCELLING_BACK[2]
  {
    hide LookUp, LookUpKey, Unpack, SubWord, InvSubWord, MixColumn, InvMixColumn, Word.Xor, Error, NetError;
    CancellingColumns();
    CancellingProducts();
    CollidingProducts();
    CancellingSums();
    LookUpError(Encrypting, LEFT);
    LookUpError(Encrypting, CANCELLING_RUN[1]);
    NetLookUp(CANCELLING_BACK[0], CANCELLING_KEYS[2]);
    NetLookUp(CANCELLING_BACK[1], CANCELLING_KEYS[1]);
  }

  function CancellingKeys(n: nat): (keys: seq<State>)
    requires Columns(n)
    ensures |keys| == 4 && IsSchedule(keys, n)
  {
    seq(4, r requires 0 <= r < 4 => Uniform(n, CANCELLING_KEYS[r]))
  }

  lemma ZeroKeys(n: nat, w: Word)
    requires Columns(n)
    ensures CancellingKeys(n)[0] == CancellingKeys(n)[3] == Uniform(n, Word(0, 0, 0, 0))
    ensures AddRoundKey(Uniform(n, w), Uniform(n, Word(0, 0, 0, 0))) == Uniform(n, w)
  {
    hide Word.Xor, AddRoundKey, Uniform;
    UniformStep(Encrypting, n, w, Word(0, 0, 0, 0));
    XorZero(w, Word(0, 0, 0, 0));
  }

  lemma CancellingRun(n: nat)
    requires Columns(n)
    ensures var keys, s := CancellingKeys(n), Uniform(n, LEFT);
            TableRun(Encrypting, keys, s, 0) == s &&
            TableRun(Encrypting, keys, s, 1) == Uniform(n, CANCELLING_RUN[1]) &&
            TableRun(Encrypting, keys, s, 2) == Uniform(n, CANCELLING_RUN[2]) &&
            TableCipher(Encrypting, keys, s) == Uniform(n, CANCELLING_BACK[0])
  {
    var keys, s := CancellingKeys(n), Uniform(n, LEFT);
    assert keys[1] == Uniform(n, CANCELLING_KEYS[1]) && keys[2] == Uniform(n, CANCELLING_KEYS[2]);
    hide Uniform, CancellingKeys, TableStep, AddRoundKey, LastStep, LookUp, LookUpKey, Unpack, Word.Xor, Mirror, Sub;
    hide SubWord, ShiftRows, SubBytes;
    ZeroKeys(n, LEFT);
    ZeroKeys(n, CANCELLING_BACK[0]);
    CancellingLookUps();
    CancellingColumns();
    UniformStep(Encrypting, n, LEFT, CANCELLING_KEYS[1]);
    UniformStep(Encrypting, n, CANCELLING_RUN[1], CANCELLING_KEYS[2]);
    UniformStep(Encrypting, n, CANCELLING_RUN[2], CANCELLING_KEYS[3]);
    FromStart(Encrypting, keys, s);
    NextRun(Encrypting, keys, s, 0);
    NextRun(Encrypting, keys, s, 1);
    LastMirrors(Uniform(n, CANCELLING_RUN[2]), keys[3]);
  }

  lemma FromStart(d: Direction, keys: seq<State>, s: State)
    requires IsSchedule(keys, |s|)
    ensures TableRun(d, keys, s, 0) == AddRoundKey(s, keys[0])
  {
    hide AddRoundKey;
  }

  lemma LastMirrors(x: State, k: State)
    requires Columns(|x|) && |k| == |x|
    ensures LastStep(Encrypting, x, k) == AddRoundKey(Mirror(x), k)
  {
    hide LastStep, AddRoundKey, ShiftRows, SubBytes;
    ExactStepEncrypts(x, k);
  }

  lemma CancellingBack(n: nat)
    requires Columns(n)
    ensures var derived, c := DecryptionKeys(CancellingKeys(n)), Uniform(n, CANCELLING_BACK[0]);
            TableRun(Decrypting, derived, c, 0) == c &&
            TableRun(Decrypting, derived, c, 1) == Uniform(n, CANCELLING_BACK[1]) &&
            TableRun(Decrypting, derived, c, 2) == Uniform(n, CANCELLING_BACK[2])
  {
    var keys, c := CancellingKeys(n), Uniform(n, CANCELLING_BACK[0]);
    var derived := DecryptionKeys(keys);
    assert keys[1] == Uniform(n, CANCELLING_KEYS[1]) && keys[2] == Uniform(n, CANCELLING_KEYS[2]);
    assert derived[0] == keys[3];
    hide Uniform, CancellingKeys, TableStep, AddRoundKey, LookUp, LookUpKey, Unpack, Word.Xor, DeriveKey,
         DecryptionKeys;
    ZeroKeys(n, CANCELLING_BACK[0]);
    CancellingLookUps();
    InnerKey(keys, 1);
    InnerKey(keys, 2);
    UniformStep(Decrypting, n, CANCELLING_BACK[0], Unpack(LookUpKey(CANCELLING_KEYS[2])));
    UniformStep(Decrypting, n, CANCELLING_BACK[1], Unpack(LookUpKey(CANCELLING_KEYS[1])));
    UniformStep(Decrypting, n, LEFT, CANCELLING_KEYS[1]);
    UniformStep(Decrypting, n, LEFT, CANCELLING_KEYS[2]);
    FromStart(Decrypting, derived, c);
    NextRun(Decrypting, derived, c, 0);
    NextRun(Decrypting, derived, c, 1);
  }

  lemma IsBadRound(keys: seq<State>, s: State, r: nat)
    requires IsSchedule(keys, |s|)
    ensures r in BadRounds(keys, s) <==>
            r + 2 < |keys| &&
            BadRound(TableRun(Encrypting, keys, s, |keys| - 3 - r),
                     TableRun(Decrypting, DecryptionKeys(keys), TableCipher(Encrypting, keys, s), r),
                     keys[|keys| - 2 - r])
  {
    hide BadRound, TableRun, DecryptionKeys, TableCipher;
  }

  lemma BothBad(n: nat)
    requires Columns(n)
    ensures BadRound(Uniform(n, CANCELLING_RUN[1]), Uniform(n, CANCELLING_BACK[0]), Uniform(n, CANCELLING_KEYS[2]))
    ensures BadRound(Uniform(n, LEFT), Uniform(n, CANCELLING_BACK[1]), Uniform(n, CANCELLING_KEYS[1]))
  {
    assert Hit(Encrypting, LEFT) && NetHit(CANCELLING_BACK[0], CANCELLING_KEYS[2]);
    hide Uniform, HitState, NetHitState, Hit, NetHit;
    UniformHits(n, LEFT, LEFT);
    UniformHits(n, CANCELLING_BACK[0], CANCELLING_KEYS[2]);
  }

  lemma OnlyTwoRounds(keys: seq<State>, s: State)
    requires IsSchedule(keys, |s|) && |keys| == 4 && 0 in BadRounds(keys, s) && 1 in BadRounds(keys, s)
    ensures BadRounds(keys, s) == {0, 1}
  {
    hide BadRound, TableRun, DecryptionKeys, TableCipher;
  }

  lemma CancellingBad(n: nat)
    requires Columns(n)
    ensures BadRounds(CancellingKeys(n), Uniform(n, LEFT)) == {0, 1}
  {
    var keys, s := CancellingKeys(n), Uniform(n, LEFT);
    assert keys[1] == Uniform(n, CANCELLING_KEYS[1]) && keys[2] == Uniform(n, CANCELLING_KEYS[2]);
    hide Uniform, CancellingKeys, TableRun, TableCipher, DecryptionKeys, BadRound, BadRounds;
    CancellingRun(n);
    CancellingBack(n);
    BothBad(n);
    IsBadRound(keys, s, 0);
    IsBadRound(keys, s, 1);
    OnlyTwoRounds(keys, s);
  }

  /** Two bad rounds can cancel: the errors left in one are those made in the other. */
  lemma TwoBadRoundsCancel(n: nat) returns (keys: seq<State>, s: State)
    requires Columns(n)
    ensures |s| == n && IsSchedule(keys, n) && BadRounds(keys, s) == {0, 1} && ComesBack(keys, s)
  {
    hide *;
    keys, s := CancellingKeys(n), Uniform(n, LEFT);
    CancellingBad(n);
    CancellingEnd(keys, s);
  }

  lemma CancellingEnd(keys: seq<State>, s: State)
    requires Columns(|s|) && keys == CancellingKeys(|s|) && s == Uniform(|s|, LEFT)
    ensures ComesBack(keys, s)
  {
    hide Uniform, CancellingKeys, TableRun, TableCipher, DecryptionKeys, Mirror, LookUp, LookUpKey, Unpack, DeriveKey;
    hide AddRoundKey, SubWord, TableStep, ComesBack, BackTrace, MirrorTrace;
    CancellingRun(|s|);
    CancellingBack(|s|);
    CancellingColumns();
    UniformStep(Encrypting, |s|, LEFT, LEFT);
    BackEnd(keys, s);
    BackIs(keys, s, 2);
  }

  lemma BackIs(keys: seq<State>, s: State, r: nat)
    requires IsSchedule(keys, |s|) && r < |keys| - 1
    ensures BackTrace(keys, s)[r] == TableRun(Decrypting, DecryptionKeys(keys), TableCipher(Encrypting, keys, s), r)
    ensures MirrorTrace(keys, s)[r] == Mirror(TableRun(Encrypting, keys, s, |keys| - 2 - r))
  {
    hide TableRun, DecryptionKeys, TableCipher, Mirror;
  }

  // ----- Every key loses some block

  const LEFT := Word(186, 0, 0, 0)
  const RIGHT := Word(176, 206, 215, 158)

  lemma CollidingSubstitutions()
    ensures SubWord(LEFT) == Word(0xf4, 0x63, 0x63, 0x63)
    ensures SubWord(RIGHT) == Word(0xe7, 0x8b, 0x0e, 0x0b)
  {
  }

  lemma CollidingProducts()
    ensures MixColumn(Word(0xf4, 0x63, 0x63, 0x63)) == Word(0x56, 0xf4, 0xf4, 0xc1)
    ensures MixColumn(Word(0xe7, 0x8b, 0x0e, 0x0b)) == Word(0x56, 0xf3, 0x6d, 0xa1)
  {
  }

  lemma ColumnsCollide()
    ensures Unpack(LookUp(Encrypting, LEFT)) == Unpack(LookUp(Encrypting, RIGHT))
  {
    hide LookUp, Unpack, Sub, Multiply;
    LookUpError(Encrypting, LEFT);
    LookUpError(Encrypting, RIGHT);
    CollidingSubstitutions();
    CollidingProducts();
  }

  /** The state in which row shifting brings w to the first column, and zeros elsewhere. */
  function Spread(n: nat, w: Word): (s: State)
    requires Columns(n)
    ensures |s| == n && ShiftRows(s) == [w] + seq(n - 1, i => Word(0, 0, 0, 0))
  {
    var t := [w] + seq(n - 1, i => Word(0, 0, 0, 0));
    ShiftRowsInverse(t);
    InvShiftRows(t)
  }

  lemma {:induction false} RunsMerge(keys: seq<State>, p: State, q: State, r: nat)
    requires IsSchedule(keys, |p|) && |q| == |p| && 0 < r < |keys|
    requires AddRoundKey(p, keys[0]) == Spread(|p|, LEFT) && AddRoundKey(q, keys[0]) == Spread(|p|, RIGHT)
    ensures TableRun(Encrypting, keys, p, r) == TableRun(Encrypting, keys, q, r)
  {
    hide LookUp, Unpack, Word.Xor, ShiftRows, AddRoundKey;
    if r == 1 {
      ColumnsCollide();
    } else {
      RunsMerge(keys, p, q, r - 1);
    }
  }

  /** Under every schedule two different blocks are enciphered to the same block. */
  lemma TwoBlocksCollide(keys: seq<State>, n: nat) returns (p: State, q: State)
    requires IsSchedule(keys, n) && |keys| > 2
    ensures |p| == |q| == n && p != q
    ensures TableCipher(Encrypting, keys, p) == TableCipher(Encrypting, keys, q)
  {
    hide LastStep, TableStep, AddRoundKey, ShiftRows;
    var a, b := Spread(n, LEFT), Spread(n, RIGHT);
    p, q := AddRoundKey(a, keys[0]), AddRoundKey(b, keys[0]);
    AddRoundKeyTwice(a, keys[0]);
    AddRoundKeyTwice(b, keys[0]);
    assert ShiftRows(a)[0] != ShiftRows(b)[0];
    RunsMerge(keys, p, q, |keys| - 2);
  }
}
