// The class CRijndael of src/common/rijndael.h and src/common/rijndael.cpp.

module CRijndaelClass {
  import opened Gf256
  import opened Fips197
  import opened RijndaelTables
  import opened RijndaelRounds
  import opened ChainModes

  /** The exceptions of the class; NoFault when a call returns. */
  datatype Fault = NoFault | EmptyKey | BadKeyLength | BadBlockLength | NotInitialized | BadDataLength

  /** sm_rcon, which has thirty entries. */
  function RconEntry(i: nat): bv8
    requires i < 30
  {
    match i
    case 0 => 1 case 1 => 2 case 2 => 4 case 3 => 8 case 4 => 16 case 5 => 32
    case 6 => 64 case 7 => 128 case 8 => 27 case 9 => 54 case 10 => 108 case 11 => 216
    case 12 => 171 case 13 => 77 case 14 => 154 case 15 => 47 case 16 => 94 case 17 => 188
    case 18 => 99 case 19 => 198 case 20 => 151 case 21 => 53 case 22 => 106 case 23 => 212
    case 24 => 179 case 25 => 125 case 26 => 250 case 27 => 239 case 28 => 197 case 29 => 145
  }

  /** sm_shifts[sc][row][column]: the shift of a row when enciphering and when deciphering. */
  function ShiftEntry(sc: nat, row: nat, d: Direction): nat
    requires sc < 3 && row < 4
  {
    var entry: (nat, nat) :=
      match (sc, row)
      case (0, 1) => (1, 3) case (0, 2) => (2, 2) case (0, 3) => (3, 1)
      case (1, 1) => (1, 5) case (1, 2) => (2, 4) case (1, 3) => (3, 3)
      case (2, 1) => (1, 7) case (2, 2) => (3, 5) case (2, 3) => (4, 4)
      case _ => (0, 0);
    if d.Encrypting? then entry.0 else entry.1
  }

  /** The shift of a row of n columns, as the cipher and its inverse define it. */
  function Shift(d: Direction, n: nat, row: nat): (shift: nat)
    requires Columns(n) && 0 < row < 4
    ensures shift < n
  {
    match d case Encrypting => Offset(n, row) case Decrypting => n - Offset(n, row)
  }

  predicate Shifts(d: Direction, n: nat, s1: nat, s2: nat, s3: nat) {
    Columns(n) && s1 == Shift(d, n, 1) && s2 == Shift(d, n, 2) && s3 == Shift(d, n, 3)
  }

  lemma EntriesAreShifts(d: Direction, n: nat)
    requires Columns(n)
    ensures var sc := if n == 4 then 0 else if n == 6 then 1 else 2;
            Shifts(d, n, ShiftEntry(sc, 1, d), ShiftEntry(sc, 2, d), ShiftEntry(sc, 3, d))
  {
  }

  lemma RowsAreRotated(d: Direction, s: State)
    requires Columns(|s|)
    ensures Rows(d, s) == Rotated(s, Shift(d, |s|, 1), Shift(d, |s|, 2), Shift(d, |s|, 3))
  {
  }

  lemma SourceIsRemainder(i: nat, shift: nat, n: nat)
    requires Columns(n) && i < n && shift <= n
    ensures Source(i, shift, n) == (i + shift) % n
  {
    if n == 4 {} else if n == 6 {} else {}
  }

  function Rounds(keyLength: nat, blockSize: nat): nat {
    match keyLength
    case 16 => if blockSize == 16 then 10 else if blockSize == 24 then 12 else 14
    case 24 => if blockSize != 32 then 12 else 14
    case _ => 14
  }

  /** Six rounds more than the longer of key and block has words. */
  lemma RoundsAre(keyLength: nat, blockSize: nat)
    requires Length(keyLength) && Length(blockSize)
    ensures Rounds(keyLength, blockSize) == 6 + (if keyLength > blockSize then keyLength else blockSize) / 4
  {
  }

  /** How far the rows move to the left in blocks of four, six and eight columns. */
  lemma RowsMove(s: State, i: nat)
    requires Columns(|s|) && i < |s|
    ensures var n := |s|;
            ShiftRows(s)[i] ==
            Word(s[i].b0, s[(i + 1) % n].b1, s[(i + if n == 8 then 3 else 2) % n].b2,
                 s[(i + if n == 8 then 4 else 3) % n].b3)
  {
    SourceIsRemainder(i, 1, |s|);
    SourceIsRemainder(i, if |s| == 8 then 3 else 2, |s|);
    SourceIsRemainder(i, if |s| == 8 then 4 else 3, |s|);
    hide Source;
  }

  predicate Length(n: int) {
    n == 16 || n == 24 || n == 32
  }

  /** The place of word j of round key r in the expanded key, r * n + j written out per size. */
  function Index(n: nat, r: nat, j: nat): nat
    requires Columns(n)
  {
    if n == 4 then 4 * r + j else if n == 6 then 6 * r + j else 8 * r + j
  }

  lemma IndexSplits(n: nat, t: nat)
    requires Columns(n)
    ensures t % n < n && Index(n, t / n, t % n) == t
    ensures forall r: nat, j: nat :: j < n && Index(n, r, j) == t ==> r == t / n && j == t % n
  {
    if n == 4 {} else if n == 6 {} else {}
  }

  lemma RconDoubles(i: nat)
    requires i < 29
    ensures RconEntry(i + 1) == XTime(RconEntry(i))
  {
    if i < 6 {} else if i < 12 {} else if i < 18 {} else if i < 24 {} else {}
  }

  lemma RconStarts()
    ensures XTime(0x8d) == 1
  {
  }

  lemma {:induction false} RconEntryIsRcon(i: nat)
    requires i < 30
    ensures RconEntry(i) == Rcon(i + 1)
  {
    hide XTime;
    if i > 0 {
      RconDoubles(i - 1);
      RconEntryIsRcon(i - 1);
    } else {
      RconStarts();
    }
  }

  /** Word j of the g-th group of kc words is word kc * g + j. */
  lemma GroupSplits(kc: nat, g: nat, j: nat)
    requires Columns(kc) && j < kc
    ensures (kc * g + j) / kc == g && (kc * g + j) % kc == j
  {
    if kc == 4 {} else if kc == 6 {} else {}
  }

  /** The round constants do not run out. */
  lemma GroupsFit(kc: nat, bc: nat, rounds: nat, g: nat)
    requires Columns(kc) && Columns(bc) && rounds <= 14 && kc * (g + 1) < (rounds + 1) * bc
    ensures g + 1 < 30 && kc * (g + 1) + kc == kc * (g + 2)
  {
    assert (rounds + 1) * bc <= 15 * bc;
  }

  lemma RowInRange(n: nat, rounds: nat, t: nat)
    requires Columns(n) && t < Index(n, rounds + 1, 0)
    ensures t / n <= rounds
  {
    if n == 4 {} else if n == 6 {} else {}
  }

  lemma IndexBelow(n: nat, r: nat, j: nat, rounds: nat)
    requires Columns(n) && j < n && r <= rounds
    ensures Index(n, r, j) < Index(n, rounds + 1, 0)
  {
  }

  lemma IndexIsProduct(n: nat, r: nat, j: nat)
    requires Columns(n)
    ensures Index(n, r, j) == r * n + j
  {
    if n == 4 {} else if n == 6 {} else {}
  }

  /** A word of a group in terms of the group before and of its predecessor. */
  lemma NextWord(key: seq<Word>, kc: nat, g: nat, j: nat)
    requires Columns(kc) && |key| == kc && g < 30 && j < kc
    ensures var i := kc * (g + 1) + j;
            var previous := Expanded(key, i - 1);
            Expanded(key, i) == Expanded(key, kc * g + j).Xor(
              if j == 0 then SubWord(RotWord(previous)).Xor(Word(RconEntry(g), 0, 0, 0))
              else if kc == 8 && j == 4 then SubWord(previous)
              else previous)
  {
    hide Word.Xor, SubWord, RconEntry, Rcon;
    RconEntryIsRcon(g);
    GroupSplits(kc, g + 1, j);
  }

  /** Four bytes from four words. */
  function Across(p: bv32, q: bv32, r: bv32, s: bv32): Word {
    Word(Byte0(p), Byte1(q), Byte2(r), Byte3(s))
  }

  function AcrossWords(p: Word, q: Word, r: Word, s: Word): Word {
    Word(p.b0, q.b1, r.b2, s.b3)
  }

  lemma RowsOfFourWords(d: Direction, x: State)
    requires |x| == 4
    ensures Rows(d, x) == match d
      case Encrypting => [AcrossWords(x[0], x[1], x[2], x[3]), AcrossWords(x[1], x[2], x[3], x[0]),
                          AcrossWords(x[2], x[3], x[0], x[1]), AcrossWords(x[3], x[0], x[1], x[2])]
      case Decrypting => [AcrossWords(x[0], x[3], x[2], x[1]), AcrossWords(x[1], x[0], x[3], x[2]),
                          AcrossWords(x[2], x[1], x[0], x[3]), AcrossWords(x[3], x[2], x[1], x[0])]
  {
    hide Rows;
    RowsAreRotated(d, x);
  }

  /** The columns that meet, for blocks of four columns. */
  lemma RowsOfFour(d: Direction, t0: bv32, t1: bv32, t2: bv32, t3: bv32)
    ensures Rows(d, [Unpack(t0), Unpack(t1), Unpack(t2), Unpack(t3)]) == match d
      case Encrypting => [Across(t0, t1, t2, t3), Across(t1, t2, t3, t0), Across(t2, t3, t0, t1),
                          Across(t3, t0, t1, t2)]
      case Decrypting => [Across(t0, t3, t2, t1), Across(t1, t0, t3, t2), Across(t2, t1, t0, t3),
                          Across(t3, t2, t1, t0)]
  {
    hide Byte0, Byte1, Byte2, Byte3, Rows;
    RowsOfFourWords(d, [Unpack(t0), Unpack(t1), Unpack(t2), Unpack(t3)]);
  }

  lemma RunStarts(d: Direction, keys: seq<State>, s: State)
    requires IsSchedule(keys, |s|)
    ensures TableRun(d, keys, s, 0) == AddRoundKey(s, keys[0])
  {
  }

  lemma ToBytesEmpty()
    ensures ToBytes([]) == []
  {
  }

  lemma ToBytesSnoc(s: State, i: nat)
    requires i < |s|
    ensures ToBytes(s[..i + 1]) == ToBytes(s[..i]) + WordBytes(s[i])
  {
    assert s[..i + 1][..i] == s[..i];
  }

  lemma BytesOfFour(w0: Word, w1: Word, w2: Word, w3: Word)
    ensures ToBytes([w0, w1, w2, w3]) == ToBytes([]) + WordBytes(w0) + WordBytes(w1) + WordBytes(w2) + WordBytes(w3)
    ensures ToBytes([]) == []
  {
    var s := [w0, w1, w2, w3];
    hide WordBytes, ToBytes;
    ToBytesEmpty();
    ToBytesSnoc(s, 0);
    ToBytesSnoc(s, 1);
    ToBytesSnoc(s, 2);
    ToBytesSnoc(s, 3);
    assert s[..4] == s && s[..0] == [];
  }

  /** Enciphering or deciphering as a function on blocks of n bytes. */
  function Permute(d: Direction, keys: seq<State>, n: nat): Permutation {
    (b: Block) => if |b| == n && n % 4 == 0 && IsSchedule(keys, n / 4) then ToBytes(TableCipher(d, keys, ToState(b)))
      else b
  }

  lemma EmptyRun(same: bool, mode: Mode, enc: Permutation, dec: Permutation, n: nat, iv: Block)
    requires n > 0
    ensures Cut(n, []) == [] && Join([]) == []
    ensures EncryptInto(same, mode, enc, iv, []) == [] && DecryptInto(same, mode, enc, dec, iv, []) == []
  {
  }

  lemma BlockFits(n: nat, size: nat, i: nat)
    requires Length(size) && n % size == 0
    ensures i < n / size ==> i * size + size == (i + 1) * size <= n
    ensures n / size * size == n
  {
    if size == 16 {} else if size == 24 {} else {}
  }

  class CRijndael {
    var keyInit: bool
    var keyLength: nat
    var blockSize: nat
    var rounds: nat
    const ke: array2<bv32>
    const kd: array2<bv32>
    const chain0: array<bv8>
    const chain: array<bv8>
    const tk: array<bv32>
    const a: array<bv32>
    const t: array<bv32>
    ghost var key: seq<Word>

    ghost predicate Shape()
    {
      ke.Length0 == kd.Length0 == 15 && ke.Length1 == kd.Length1 == 8 && ke != kd &&
      chain0.Length == chain.Length == 32 && chain0 != chain &&
      tk.Length == a.Length == t.Length == 8 && tk != a && a != t && t != tk
    }

    ghost predicate Sizes()
      reads this
    {
      Length(keyLength) && Length(blockSize) && rounds == Rounds(keyLength, blockSize) && |key| == keyLength / 4
    }

    ghost function EncryptionSchedule(): (keys: seq<State>)
      reads this
      requires Sizes()
      ensures IsSchedule(keys, blockSize / 4)
    {
      Schedule(key, blockSize / 4, rounds)
    }

    ghost predicate Valid()
      reads this, ke, kd
    {
      Shape() &&
      (keyInit ==> Sizes() && Holds(ke, EncryptionSchedule()) && Holds(kd, DecryptionKeys(EncryptionSchedule())))
    }

    constructor ()
      ensures Valid() && !keyInit
      ensures fresh(ke) && fresh(kd) && fresh(chain0) && fresh(chain) && fresh(tk) && fresh(a) && fresh(t)
    {
      keyInit := false;
      ke := new bv32[15, 8];
      kd := new bv32[15, 8];
      chain0 := new bv8[32];
      chain := new bv8[32];
      tk := new bv32[8];
      a := new bv32[8];
      t := new bv32[8];
      keyLength, blockSize, rounds, key := 0, 0, 0, [];
    }

    // ----- Key set-up

    /** The first n words of the expanded key are in ke, and in kd with the rounds reversed. */
    ghost predicate Stored(key: seq<Word>, bc: nat, rounds: nat, n: nat)
      requires Shape() && Columns(bc) && rounds <= 14 && |key| > 0
      reads ke, kd
    {
      forall r, j | 0 <= r <= rounds && 0 <= j < bc && Index(bc, r, j) < n ::
        Unpack(ke[r, j]) == Expanded(key, Index(bc, r, j)) == Unpack(kd[rounds - r, j])
    }

    /** tk holds the words of the expanded key from n on. */
    ghost predicate Grouped(key: seq<Word>, n: nat)
      requires Shape() && 0 < |key| <= 8
      reads tk
    {
      forall j | 0 <= j < |key| :: Unpack(tk[j]) == Expanded(key, n + j)
    }

    method StoreWord(ghost key: seq<Word>, bc: nat, rounds: nat, n: nat, w: bv32)
      requires Shape() && Columns(bc) && |key| > 0 && rounds <= 14 && n < Index(bc, rounds + 1, 0)
      requires Stored(key, bc, rounds, n) && Unpack(w) == Expanded(key, n)
      modifies ke, kd
      ensures Stored(key, bc, rounds, n + 1)
    {
      hide Unpack, Expanded, Index;
      IndexSplits(bc, n);
      RowInRange(bc, rounds, n);
      var r, c := n / bc, n % bc;
      ke[r, c] := w;
      kd[rounds - r, c] := w;
    }

    /** Copies one group of words into the round keys, as many as there is room for. */
    method StoreGroup(ghost key: seq<Word>, kc: nat, bc: nat, rounds: nat, count: nat, t0: nat) returns (t: nat)
      requires Shape() && Columns(bc) && Columns(kc) && |key| == kc && rounds <= 14
      requires count == Index(bc, rounds + 1, 0) && t0 <= count
      requires Stored(key, bc, rounds, t0) && Grouped(key, t0)
      modifies ke, kd
      ensures t == if t0 + kc < count then t0 + kc else count
      ensures Stored(key, bc, rounds, t)
    {
      hide Unpack, Expanded, Index, Stored;
      t := t0;
      var j := 0;
      while j < kc && t < count
        invariant 0 <= j <= kc && t == t0 + j <= count
        invariant Stored(key, bc, rounds, t)
      {
        StoreWord(key, bc, rounds, t, tk[j]);
        j, t := j + 1, t + 1;
      }
    }

    /** Replaces the words of group g by those of the next group, the round key evolution. */
    method NextGroup(ghost key: seq<Word>, kc: nat, g: nat)
      requires Shape() && Columns(kc) && |key| == kc && g < 30
      requires Grouped(key, kc * g)
      modifies tk
      ensures Grouped(key, kc * (g + 1))
    {
      hide Unpack, Pack, Plus, Expanded, SubWord, RotWord, RconEntry, Word.Xor;
      var tt := tk[kc - 1];
      NextWord(key, kc, g, 0);
      AddWord(key, kc, g, 0, SubWord(RotWord(Unpack(tt))).Xor(Word(RconEntry(g), 0, 0, 0)));
      if kc != 8 {
        AddPrevious(key, kc, g, 1, kc);
      } else {
        AddPrevious(key, kc, g, 1, 4);
        tt := tk[3];
        NextWord(key, kc, g, 4);
        AddWord(key, kc, g, 4, SubWord(Unpack(tt)));
        AddPrevious(key, kc, g, 5, 8);
      }
    }

    /** The first i words of tk belong to group g + 1, the others still to group g. */
    ghost predicate Evolving(key: seq<Word>, g: nat, i: nat)
      requires Shape() && 0 < |key| <= 8
      reads tk
    {
      forall j | 0 <= j < |key| :: Unpack(tk[j]) == Expanded(key, if j < i then |key| * (g + 1) + j else |key| * g + j)
    }

    method AddWord(ghost key: seq<Word>, kc: nat, g: nat, i: nat, w: Word)
      requires Shape() && Columns(kc) && |key| == kc && g < 30 && i < kc
      requires Evolving(key, g, i)
      requires Expanded(key, kc * (g + 1) + i) == Expanded(key, kc * g + i).Xor(w)
      modifies tk
      ensures Evolving(key, g, i + 1)
    {
      hide Unpack, Pack, Plus, Expanded, Word.Xor;
      UnpackPlus(tk[i], Pack(w));
      UnpackPack(w);
      tk[i] := Plus(tk[i], Pack(w));
    }

    /** tk[i] ^= tk[i - 1] for i from lo to hi. */
    method AddPrevious(ghost key: seq<Word>, kc: nat, g: nat, lo: nat, hi: nat)
      requires Shape() && Columns(kc) && |key| == kc && g < 30 && 0 < lo <= hi <= kc && (kc == 8 ==> !(lo <= 4 < hi))
      requires Evolving(key, g, lo)
      modifies tk
      ensures Evolving(key, g, hi)
    {
      hide Unpack, Plus, Expanded, Word.Xor;
      var i := lo;
      while i < hi
        invariant lo <= i <= hi
        invariant Evolving(key, g, i)
      {
        NextWord(key, kc, g, i);
        UnpackPlus(tk[i], tk[i - 1]);
        tk[i] := Plus(tk[i], tk[i - 1]);
        i := i + 1;
      }
    }

    /** Copies the key bytes into tk. */
    method LoadKey(k: array<bv8>, kc: nat)
      requires Shape() && Columns(kc) && 4 * kc <= k.Length
      modifies tk
      ensures Grouped(ToState(k[..4 * kc]), 0)
    {
      hide Unpack, Pack;
      var i := 0;
      while i < kc
        invariant 0 <= i <= kc
        invariant forall j | 0 <= j < i :: Unpack(tk[j]) == ToState(k[..4 * kc])[j]
      {
        var w := Word(k[4 * i], k[4 * i + 1], k[4 * i + 2], k[4 * i + 3]);
        UnpackPack(w);
        tk[i] := Pack(w);
        i := i + 1;
      }
    }

    /** Fills both key arrays with the expanded key. */
    method ExpandKey(ghost key: seq<Word>, kc: nat, bc: nat, rounds: nat)
      requires Shape() && Columns(bc) && Columns(kc) && |key| == kc && rounds <= 14
      requires Grouped(key, 0)
      modifies ke, kd, tk
      ensures Stored(key, bc, rounds, Index(bc, rounds + 1, 0))
    {
      hide Grouped, Stored, Index;
      var count := (rounds + 1) * bc;
      IndexIsProduct(bc, rounds + 1, 0);
      NothingStored(key, bc, rounds);
      var t := StoreGroup(key, kc, bc, rounds, count, 0);
      var rconpointer := 0;
      while t < count
        invariant t <= count
        invariant t == kc * (rconpointer + 1) || t == count
        invariant Grouped(key, kc * rconpointer) && Stored(key, bc, rounds, t)
        decreases count - t
      {
        GroupsFit(kc, bc, rounds, rconpointer);
        NextGroup(key, kc, rconpointer);
        rconpointer := rconpointer + 1;
        t := StoreGroup(key, kc, bc, rounds, count, t);
      }
    }

    lemma NothingStored(key: seq<Word>, bc: nat, rounds: nat)
      requires Shape() && Columns(bc) && rounds <= 14 && |key| > 0
      ensures Stored(key, bc, rounds, 0)
    {
    }

    /** The inverse column transformation, in place, on one row of kd. */
    method MixRow(r: nat, bc: nat)
      requires Shape() && bc <= 8 && r < 15
      modifies kd
      ensures forall q, j | 0 <= q < 15 && 0 <= j < 8 ::
                if q == r && j < bc then Unpack(kd[q, j]) == Unpack(LookUpKey(Unpack(old(kd[q, j]))))
                else kd[q, j] == old(kd[q, j])
    {
      hide Unpack, LookUpKey;
      var j := 0;
      while j < bc
        invariant 0 <= j <= bc
        invariant forall q, i | 0 <= q < 15 && 0 <= i < 8 ::
                    kd[q, i] == if q == r && i < j then LookUpKey(Unpack(old(kd[q, i]))) else old(kd[q, i])
      {
        var tt := kd[r, j];
        kd[r, j] := LookUpKey(Unpack(tt));
        j := j + 1;
      }
    }

    lemma StoredIsSchedule(key: seq<Word>, bc: nat, rounds: nat)
      requires Shape() && Columns(bc) && 0 < rounds <= 14 && 0 < |key| <= 8
      requires Stored(key, bc, rounds, Index(bc, rounds + 1, 0))
      ensures var keys := Schedule(key, bc, rounds);
              Holds(ke, keys) &&
              forall r, j | 0 <= r <= rounds && 0 <= j < bc :: Unpack(kd[r, j]) == keys[rounds - r][j]
    {
      hide Unpack, Expanded, Index;
      var keys := Schedule(key, bc, rounds);
      forall r, j | 0 <= r <= rounds && 0 <= j < bc
        ensures Index(bc, r, j) < Index(bc, rounds + 1, 0) &&
                Unpack(ke[r, j]) == keys[r][j] == Unpack(kd[rounds - r, j])
      {
        IndexIsProduct(bc, r, j);
        IndexBelow(bc, r, j, rounds);
      }
      forall r, j | 0 <= r <= rounds && 0 <= j < bc ensures Unpack(kd[r, j]) == keys[rounds - r][j] {
        assert keys[rounds - r][j] == Unpack(kd[rounds - (rounds - r), j]);
      }
    }

    /** Applies the inverse column transformation to all but the outer rows of kd. */
    method MixDecryptionKeys(ghost key: seq<Word>, bc: nat, rounds: nat)
      requires Shape() && Columns(bc) && 0 < rounds <= 14 && 0 < |key| <= 8
      requires Stored(key, bc, rounds, Index(bc, rounds + 1, 0))
      modifies kd
      ensures Holds(ke, Schedule(key, bc, rounds)) && Holds(kd, DecryptionKeys(Schedule(key, bc, rounds)))
    {
      hide Unpack, LookUpKey, Stored, Schedule;
      ghost var keys := Schedule(key, bc, rounds);
      StoredIsSchedule(key, bc, rounds);
      var r := 1;
      while r < rounds
        invariant 1 <= r <= rounds
        invariant forall q, j | 0 <= q <= rounds && 0 <= j < bc ::
                    Unpack(kd[q, j]) == if 0 < q < r then Unpack(LookUpKey(keys[rounds - q][j]))
                      else keys[rounds - q][j]
      {
        MixRow(r, bc);
        r := r + 1;
      }
      forall q | 0 < q < rounds
        ensures DecryptionKeys(keys)[q] == DeriveKey(keys[rounds - q])
      {
        InnerKey(keys, q);
      }
    }

    /** memcpy(&to[d], &from[s], n) for buffers that do not overlap. */
    static method CopyBytes(to: array<bv8>, d: nat, from: array<bv8>, s: nat, n: nat)
      requires to != from && d + n <= to.Length && s + n <= from.Length
      modifies to
      ensures to[d..d + n] == from[s..s + n]
      ensures forall x | 0 <= x < to.Length && !(d <= x < d + n) :: to[x] == old(to[x])
    {
      forall i | 0 <= i < n { to[d + i] := from[s + i]; }
    }

    /** Sets up the cipher for a key and block size, with the given initial chain. */
    method MakeKey(k: array?<bv8>, c: array<bv8>, keylength: int, blocksize: int) returns (fault: Fault)
      requires Valid() && k != chain0 && k != chain && c != chain0 && c != chain
      requires k != null && Length(keylength) && Length(blocksize) ==> keylength <= k.Length && blocksize <= c.Length
      modifies this, ke, kd, tk, chain0, chain
      ensures Valid()
      ensures fault == if k == null then EmptyKey else if !Length(keylength) then BadKeyLength
                       else if !Length(blocksize) then BadBlockLength else NoFault
      ensures fault == NoFault ==>
                keyInit && keyLength == keylength && blockSize == blocksize &&
                key == ToState(k[..keylength]) && chain0[..blocksize] == chain[..blocksize] == c[..blocksize]
      ensures fault != NoFault ==>
                keyInit == old(keyInit) && keyLength == old(keyLength) && blockSize == old(blockSize) &&
                rounds == old(rounds) && key == old(key) && chain[..] == old(chain[..]) && chain0[..] == old(chain0[..])
    {
      hide Holds, Sizes, EncryptionSchedule;
      if k == null {
        return EmptyKey;
      }
      if !(16 == keylength || 24 == keylength || 32 == keylength) {
        return BadKeyLength;
      }
      if !(16 == blocksize || 24 == blocksize || 32 == blocksize) {
        return BadBlockLength;
      }
      keyLength := keylength;
      blockSize := blocksize;
      CopyBytes(chain0, 0, c, 0, blocksize);
      CopyBytes(chain, 0, c, 0, blocksize);
      SetKey(k);
      return NoFault;
    }

    /** Derives the round keys once the sizes are set. */
    method SetKey(k: array<bv8>)
      requires Shape() && Length(keyLength) && Length(blockSize) && keyLength <= k.Length
      modifies `keyInit, `rounds, `key, ke, kd, tk
      ensures Valid() && keyInit && key == ToState(k[..keyLength])
    {
      hide Holds, Schedule, DecryptionKeys, Stored, Grouped, Index, ToState;
      rounds := Rounds(keyLength, blockSize);
      key := ToState(k[..keyLength]);
      LoadKey(k, keyLength / 4);
      ExpandKey(key, keyLength / 4, blockSize / 4, rounds);
      MixDecryptionKeys(key, blockSize / 4, rounds);
      keyInit := true;
    }

    // ----- One block

    function Keys(d: Direction): array2<bv32> {
      match d case Encrypting => ke case Decrypting => kd
    }

    ghost function RoundKeys(d: Direction): (keys: seq<State>)
      reads this
      requires Sizes()
      ensures IsSchedule(keys, blockSize / 4)
    {
      match d case Encrypting => EncryptionSchedule() case Decrypting => DecryptionKeys(EncryptionSchedule())
    }

    /** What enciphering or deciphering the block b gives. */
    ghost function Crypted(d: Direction, b: Block): (c: Block)
      reads this
      requires Sizes() && |b| == blockSize
      ensures |c| == blockSize
    {
      Permute(d, RoundKeys(d), blockSize)(b)
    }

    /** The work array t holds the state s. */
    ghost predicate Working(s: State)
      requires Shape() && |s| <= 8
      reads t
    {
      forall j | 0 <= j < |s| :: Unpack(t[j]) == s[j]
    }

    /** Packs a block into t and adds the first round key. */
    method LoadBlock(d: Direction, src: array<bv8>, so: nat, bc: nat)
      requires Valid() && keyInit && bc == blockSize / 4 && so + blockSize <= src.Length
      modifies t
      ensures Working(AddRoundKey(ToState(src[so..so + blockSize]), RoundKeys(d)[0]))
    {
      hide Unpack, Holds, RoundKeys, ToState, Word.Xor;
      ghost var s := ToState(src[so..so + blockSize]);
      var i := 0;
      while i < bc
        invariant 0 <= i <= bc
        invariant forall j | 0 <= j < i :: Unpack(t[j]) == s[j].Xor(RoundKeys(d)[0][j])
      {
        t[i] := AddedWord(d, src, so, i);
        i := i + 1;
      }
    }

    /** The bytes that meet in column i of the rotated state. */
    method Column(ghost d: Direction, i: nat, s1: nat, s2: nat, s3: nat, bc: nat, ghost s: State) returns (w: Word)
      requires Shape() && Shifts(d, bc, s1, s2, s3) && |s| == bc && i < bc && Working(s)
      ensures w == Rows(d, s)[i]
    {
      hide Byte0, Byte1, Byte2, Byte3, Shift, Rows, Source;
      RowsAreRotated(d, s);
      SourceIsRemainder(i, s1, bc);
      SourceIsRemainder(i, s2, bc);
      SourceIsRemainder(i, s3, bc);
      w := Word(Byte0(t[i]), Byte1(t[(i + s1) % bc]), Byte2(t[(i + s2) % bc]), Byte3(t[(i + s3) % bc]));
    }

    /** One round of table lookups, through a and back to t. */
    method Round(d: Direction, r: nat, s1: nat, s2: nat, s3: nat, bc: nat, ghost s: State, ghost k: State)
      requires Shape() && Columns(bc) && Shifts(d, bc, s1, s2, s3) && |s| == |k| == bc && r < 15 && Working(s)
      requires forall j | 0 <= j < bc :: Unpack(Keys(d)[r, j]) == k[j]
      modifies a, t
      ensures Working(TableStep(d, s, k))
    {
      hide Unpack, LookUp, Plus, Rows, Shifts, Word.Xor;
      var i := 0;
      while i < bc
        invariant 0 <= i <= bc && Working(s)
        invariant forall j | 0 <= j < i :: Unpack(a[j]) == TableStep(d, s, k)[j]
      {
        var w := Column(d, i, s1, s2, s3, bc, s);
        UnpackPlus(LookUp(d, w), Keys(d)[r, i]);
        a[i] := Plus(LookUp(d, w), Keys(d)[r, i]);
        i := i + 1;
      }
      forall j | 0 <= j < bc { t[j] := a[j]; }
    }

    /** Writes a word after the bytes written from position first on. */
    static method PutWord(dst: array<bv8>, ghost first: nat, at: nat, w: Word)
      requires first <= at && at + 4 <= dst.Length
      modifies dst
      ensures dst[first..at + 4] == old(dst[first..at]) + WordBytes(w)
      ensures forall x | 0 <= x < dst.Length && !(first <= x < at + 4) :: dst[x] == old(dst[x])
    {
      dst[at], dst[at + 1], dst[at + 2], dst[at + 3] := w.b0, w.b1, w.b2, w.b3;
    }

    /** The last round: substitution and key addition, written to dst. */
    method LastRound(d: Direction, dst: array<bv8>, to: nat, s1: nat, s2: nat, s3: nat, bc: nat, ghost s: State,
                     ghost k: State)
      requires Shape() && Columns(bc) && Shifts(d, bc, s1, s2, s3) && |s| == |k| == bc && rounds < 15 && Working(s)
      requires to + 4 * bc <= dst.Length
      requires forall j | 0 <= j < bc :: Unpack(Keys(d)[rounds, j]) == k[j]
      modifies dst
      ensures dst[to..to + 4 * bc] == ToBytes(LastStep(d, s, k))
      ensures forall x | 0 <= x < dst.Length && !(to <= x < to + 4 * bc) :: dst[x] == old(dst[x])
    {
      hide Unpack, Substitute, Rows, Shifts, Word.Xor, WordBytes, ToBytes;
      ghost var out := LastStep(d, s, k);
      var i := 0;
      ToBytesEmpty();
      while i < bc
        invariant 0 <= i <= bc && Working(s)
        invariant dst[to..to + 4 * i] == ToBytes(out[..i])
        invariant forall x | 0 <= x < dst.Length && !(to <= x < to + 4 * i) :: dst[x] == old(dst[x])
      {
        var w := Column(d, i, s1, s2, s3, bc, s);
        var tt := Keys(d)[rounds, i];
        ToBytesSnoc(out, i);
        PutWord(dst, to, to + 4 * i, Substitute(d, w).Xor(Unpack(tt)));
        i := i + 1;
      }
      assert out[..bc] == out;
    }

    lemma KeyRow(d: Direction, r: nat)
      requires Valid() && keyInit && r <= rounds
      ensures |RoundKeys(d)| == rounds + 1 && 10 <= rounds <= 14
      ensures forall j | 0 <= j < blockSize / 4 :: Unpack(Keys(d)[r, j]) == RoundKeys(d)[r][j]
    {
      hide Unpack, Schedule, DecryptionKeys;
    }

    /** All rounds but the last. */
    method MiddleRounds(d: Direction, s1: nat, s2: nat, s3: nat, bc: nat, ghost s: State)
      requires Valid() && keyInit && bc == blockSize / 4 && |s| == bc && Shifts(d, bc, s1, s2, s3)
      requires Working(TableRun(d, RoundKeys(d), s, 0))
      modifies a, t
      ensures Working(TableRun(d, RoundKeys(d), s, rounds - 1))
    {
      hide Unpack, Holds, RoundKeys, Shifts, TableStep, AddRoundKey;
      var r := 1;
      KeyRow(d, 0);
      while r < rounds
        invariant 1 <= r <= rounds
        invariant Working(TableRun(d, RoundKeys(d), s, r - 1))
      {
        KeyRow(d, r);
        Round(d, r, s1, s2, s3, bc, TableRun(d, RoundKeys(d), s, r - 1), RoundKeys(d)[r]);
        r := r + 1;
      }
    }

    lemma CryptedIs(d: Direction, b: Block)
      requires Valid() && keyInit && |b| == blockSize
      ensures var keys := RoundKeys(d);
              |keys| == rounds + 1 && 10 <= rounds <= 14 &&
              Crypted(d, b) == ToBytes(LastStep(d, TableRun(d, keys, ToState(b), rounds - 1), keys[rounds]))
    {
      hide Unpack, Holds, RoundKeys, ToState, ToBytes, LastStep, TableRun;
      KeyRow(d, rounds);
    }

    /** The general loops, for blocks of any size. */
    method GeneralBlock(d: Direction, src: array<bv8>, so: nat, dst: array<bv8>, to: nat)
      requires Valid() && keyInit && so + blockSize <= src.Length && to + blockSize <= dst.Length
      modifies dst, a, t
      ensures dst[to..to + blockSize] == Crypted(d, old(src[so..so + blockSize]))
      ensures forall x | 0 <= x < dst.Length && !(to <= x < to + blockSize) :: dst[x] == old(dst[x])
    {
      hide Unpack, Holds, RoundKeys, Crypted, Working, Shifts, ShiftEntry, ToState, ToBytes, LastStep, TableRun,
           AddRoundKey, Rounds;
      CryptedIs(d, src[so..so + blockSize]);
      var bc := blockSize / 4;
      var sc := if bc == 4 then 0 else if bc == 6 then 1 else 2;
      var s1, s2, s3 := ShiftEntry(sc, 1, d), ShiftEntry(sc, 2, d), ShiftEntry(sc, 3, d);
      ghost var keys, s := RoundKeys(d), ToState(src[so..so + blockSize]);
      EntriesAreShifts(d, bc);
      KeyRow(d, rounds);
      RunStarts(d, keys, s);
      LoadBlock(d, src, so, bc);
      MiddleRounds(d, s1, s2, s3, bc, s);
      LastRound(d, dst, to, s1, s2, s3, bc, TableRun(d, keys, s, rounds - 1), keys[rounds]);
    }

    /** The bytes of a block packed into four words, the first round key added. */
    method LoadFour(d: Direction, src: array<bv8>, so: nat) returns (t0: bv32, t1: bv32, t2: bv32, t3: bv32)
      requires Valid() && keyInit && blockSize == 16 && so + 16 <= src.Length
      ensures [Unpack(t0), Unpack(t1), Unpack(t2), Unpack(t3)] ==
              TableRun(d, RoundKeys(d), ToState(src[so..so + 16]), 0)
    {
      hide Unpack, Pack, Plus, Holds, RoundKeys, Word.Xor;
      KeyRow(d, 0);
      t0 := AddedWord(d, src, so, 0);
      t1 := AddedWord(d, src, so, 1);
      t2 := AddedWord(d, src, so, 2);
      t3 := AddedWord(d, src, so, 3);
    }

    method AddedWord(d: Direction, src: array<bv8>, so: nat, i: nat) returns (w: bv32)
      requires Valid() && keyInit && i < blockSize / 4 && so + blockSize <= src.Length
      ensures Unpack(w) == ToState(src[so..so + blockSize])[i].Xor(RoundKeys(d)[0][i])
    {
      hide Unpack, Pack, Plus, Holds, RoundKeys, Word.Xor;
      KeyRow(d, 0);
      var v := Word(src[so + 4 * i], src[so + 4 * i + 1], src[so + 4 * i + 2], src[so + 4 * i + 3]);
      assert v == ToState(src[so..so + blockSize])[i];
      UnpackPack(v);
      UnpackPlus(Pack(v), Keys(d)[0, i]);
      w := Plus(Pack(v), Keys(d)[0, i]);
    }

    /** One word of a round on four words, given the words its rows come from. */
    method RoundWord(d: Direction, r: nat, i: nat, p: bv32, q: bv32, u: bv32, v: bv32) returns (w: bv32)
      requires Valid() && keyInit && r <= rounds && i < blockSize / 4
      ensures Unpack(w) == Unpack(LookUp(d, Across(p, q, u, v))).Xor(RoundKeys(d)[r][i])
    {
      hide Unpack, LookUp, Across, Plus, Holds, RoundKeys, Word.Xor;
      KeyRow(d, r);
      UnpackPlus(LookUp(d, Across(p, q, u, v)), Keys(d)[r, i]);
      w := Plus(LookUp(d, Across(p, q, u, v)), Keys(d)[r, i]);
    }

    /** One round on four words. */
    method RoundOfFour(d: Direction, r: nat, t0: bv32, t1: bv32, t2: bv32, t3: bv32, ghost s: State)
      returns (a0: bv32, a1: bv32, a2: bv32, a3: bv32)
      requires Valid() && keyInit && blockSize == 16 && r <= rounds
      requires s == [Unpack(t0), Unpack(t1), Unpack(t2), Unpack(t3)]
      ensures [Unpack(a0), Unpack(a1), Unpack(a2), Unpack(a3)] == TableStep(d, s, RoundKeys(d)[r])
    {
      hide Unpack, Across, LookUp, Holds, RoundKeys, Rows, Word.Xor;
      RowsOfFour(d, t0, t1, t2, t3);
      KeyRow(d, r);
      if d == Encrypting {
        a0 := RoundWord(d, r, 0, t0, t1, t2, t3);
        a1 := RoundWord(d, r, 1, t1, t2, t3, t0);
        a2 := RoundWord(d, r, 2, t2, t3, t0, t1);
        a3 := RoundWord(d, r, 3, t3, t0, t1, t2);
      } else {
        a0 := RoundWord(d, r, 0, t0, t3, t2, t1);
        a1 := RoundWord(d, r, 1, t1, t0, t3, t2);
        a2 := RoundWord(d, r, 2, t2, t1, t0, t3);
        a3 := RoundWord(d, r, 3, t3, t2, t1, t0);
      }
    }

    /** Column i of the last round, given the words its rows come from. */
    method LastWord(d: Direction, i: nat, p: bv32, q: bv32, u: bv32, v: bv32) returns (w: Word)
      requires Valid() && keyInit && i < blockSize / 4
      ensures w == Substitute(d, Across(p, q, u, v)).Xor(RoundKeys(d)[rounds][i])
    {
      hide Unpack, Substitute, Across, Holds, RoundKeys, Word.Xor;
      KeyRow(d, rounds);
      var tt := Keys(d)[rounds, i];
      w := Substitute(d, Across(p, q, u, v)).Xor(Unpack(tt));
    }

    method LastOfFour(d: Direction, dst: array<bv8>, to: nat, t0: bv32, t1: bv32, t2: bv32, t3: bv32, ghost s: State)
      requires Valid() && keyInit && blockSize == 16 && to + 16 <= dst.Length
      requires s == [Unpack(t0), Unpack(t1), Unpack(t2), Unpack(t3)]
      modifies dst
      ensures dst[to..to + 16] == ToBytes(LastStep(d, s, RoundKeys(d)[rounds]))
      ensures forall x | 0 <= x < dst.Length && !(to <= x < to + 16) :: dst[x] == old(dst[x])
    {
      hide Unpack, Across, Substitute, Holds, RoundKeys, Rows, Word.Xor, ToBytes;
      RowsOfFour(d, t0, t1, t2, t3);
      KeyRow(d, rounds);
      var w0, w1, w2, w3;
      if d == Encrypting {
        w0 := LastWord(d, 0, t0, t1, t2, t3);
        w1 := LastWord(d, 1, t1, t2, t3, t0);
        w2 := LastWord(d, 2, t2, t3, t0, t1);
        w3 := LastWord(d, 3, t3, t0, t1, t2);
      } else {
        w0 := LastWord(d, 0, t0, t3, t2, t1);
        w1 := LastWord(d, 1, t1, t0, t3, t2);
        w2 := LastWord(d, 2, t2, t1, t0, t3);
        w3 := LastWord(d, 3, t3, t2, t1, t0);
      }
      assert LastStep(d, s, RoundKeys(d)[rounds]) == [w0, w1, w2, w3];
      PutFour(dst, to, w0, w1, w2, w3);
    }

    static method PutFour(dst: array<bv8>, to: nat, w0: Word, w1: Word, w2: Word, w3: Word)
      requires to + 16 <= dst.Length
      modifies dst
      ensures dst[to..to + 16] == ToBytes([w0, w1, w2, w3])
      ensures forall x | 0 <= x < dst.Length && !(to <= x < to + 16) :: dst[x] == old(dst[x])
    {
      hide WordBytes, ToBytes;
      BytesOfFour(w0, w1, w2, w3);
      PutWord(dst, to, to, w0);
      PutWord(dst, to, to + 4, w1);
      PutWord(dst, to, to + 8, w2);
      PutWord(dst, to, to + 12, w3);
    }

    /** DefEncryptBlock and DefDecryptBlock: the same rounds unrolled for four columns. */
    method UnrolledBlock(d: Direction, src: array<bv8>, so: nat, dst: array<bv8>, to: nat)
      requires Valid() && keyInit && blockSize == 16 && so + 16 <= src.Length && to + 16 <= dst.Length
      modifies dst
      ensures dst[to..to + 16] == Crypted(d, old(src[so..so + 16]))
      ensures forall x | 0 <= x < dst.Length && !(to <= x < to + 16) :: dst[x] == old(dst[x])
    {
      hide Unpack, Holds, RoundKeys, ToState, ToBytes, TableStep, LastStep, AddRoundKey;
      ghost var keys, s := RoundKeys(d), ToState(src[so..so + 16]);
      KeyRow(d, 0);
      var t0, t1, t2, t3 := LoadFour(d, src, so);
      var r := 1;
      while r < rounds
        invariant 1 <= r <= rounds
        invariant [Unpack(t0), Unpack(t1), Unpack(t2), Unpack(t3)] == TableRun(d, keys, s, r - 1)
        invariant dst[..] == old(dst[..])
      {
        t0, t1, t2, t3 := RoundOfFour(d, r, t0, t1, t2, t3, TableRun(d, keys, s, r - 1));
        r := r + 1;
      }
      LastOfFour(d, dst, to, t0, t1, t2, t3, TableRun(d, keys, s, rounds - 1));
    }

    /** EncryptBlock and DecryptBlock. */
    method CryptBlock(d: Direction, src: array<bv8>, so: nat, dst: array<bv8>, to: nat) returns (fault: Fault)
      requires Valid() && (keyInit ==> so + blockSize <= src.Length && to + blockSize <= dst.Length)
      modifies dst, a, t
      ensures fault == if keyInit then NoFault else NotInitialized
      ensures keyInit ==> dst[to..to + blockSize] == Crypted(d, old(src[so..so + blockSize]))
      ensures forall x | 0 <= x < dst.Length && !(keyInit && to <= x < to + blockSize) :: dst[x] == old(dst[x])
    {
      hide Holds, RoundKeys, Permute;
      if keyInit == false {
        return NotInitialized;
      }
      if 16 == blockSize {
        UnrolledBlock(d, src, so, dst, to);
        return NoFault;
      }
      GeneralBlock(d, src, so, dst, to);
      return NoFault;
    }

    // ----- Chaining modes

    /** buff ^= src over one block. */
    method Xor(buff: array<bv8>, bo: nat, src: array<bv8>, so: nat)
      requires (buff != src || bo == so) && bo + blockSize <= buff.Length && so + blockSize <= src.Length
      modifies buff
      ensures buff[bo..bo + blockSize] == XorBlock(old(buff[bo..bo + blockSize]), old(src[so..so + blockSize]))
      ensures forall x | 0 <= x < buff.Length && !(bo <= x < bo + blockSize) :: buff[x] == old(buff[x])
    {
      hide Add, XorBlock;
      ghost var before, source := buff[..], src[..];
      var i := 0;
      while i < blockSize
        invariant 0 <= i <= blockSize
        invariant forall x | 0 <= x < buff.Length ::
                    buff[x] == if bo <= x < bo + i then Add(before[x], source[so + (x - bo)]) else before[x]
        invariant forall x | so + i <= x < src.Length :: src[x] == source[x]
      {
        buff[bo + i] := Add(buff[bo + i], src[so + i]);
        i := i + 1;
      }
      XorBlockInPlace(before, buff[..], bo, source, so, blockSize);
      assert buff[..][bo..bo + blockSize] == buff[bo..bo + blockSize];
      assert before[bo..bo + blockSize] == old(buff[bo..bo + blockSize]);
      assert source[so..so + blockSize] == old(src[so..so + blockSize]);
    }

    /** The input and the result are not the chains; they may be the same buffer. */
    ghost predicate Buffers(inp: array<bv8>, result: array<bv8>)
    {
      inp != chain && inp != chain0 && result != chain && result != chain0
    }

    /** One block of Encrypt in the given mode. */
    method EncryptOne(mode: Mode, inp: array<bv8>, result: array<bv8>, pos: nat)
      requires Valid() && keyInit && Buffers(inp, result) && pos + blockSize <= inp.Length &&
               pos + blockSize <= result.Length
      modifies result, chain, a, t
      ensures result[pos..pos + blockSize] ==
              EncryptIntoStep(inp == result, mode, Permute(Encrypting, RoundKeys(Encrypting), blockSize),
                              old(chain[..blockSize]), old(inp[pos..pos + blockSize]))
      ensures forall x | 0 <= x < result.Length && !(pos <= x < pos + blockSize) :: result[x] == old(result[x])
      ensures chain[..blockSize] == if mode == Ecb then old(chain[..blockSize]) else result[pos..pos + blockSize]
    {
      hide Holds, RoundKeys, Permute, XorBlock;
      var fault;
      assert chain[0..blockSize] == chain[..blockSize];
      match mode {
        case Cbc =>
          Xor(chain, 0, inp, pos);
          assert chain[0..blockSize] == chain[..blockSize];
          fault := CryptBlock(Encrypting, chain, 0, result, pos);
          CopyBytes(chain, 0, result, pos, blockSize);
        case Cfb =>
          fault := CryptBlock(Encrypting, chain, 0, result, pos);
          Xor(result, pos, inp, pos);
          CopyBytes(chain, 0, result, pos, blockSize);
        case Ecb =>
          fault := CryptBlock(Encrypting, inp, pos, result, pos);
      }
    }

    /** One block of Decrypt in the given mode. */
    method DecryptOne(mode: Mode, inp: array<bv8>, result: array<bv8>, pos: nat)
      requires Valid() && keyInit && Buffers(inp, result) && pos + blockSize <= inp.Length &&
               pos + blockSize <= result.Length
      modifies result, chain, a, t
      ensures result[pos..pos + blockSize] ==
              DecryptIntoStep(inp == result, mode, Permute(Encrypting, RoundKeys(Encrypting), blockSize),
                              Permute(Decrypting, RoundKeys(Decrypting), blockSize),
                              old(chain[..blockSize]), old(inp[pos..pos + blockSize]))
      ensures forall x | 0 <= x < result.Length && !(pos <= x < pos + blockSize) :: result[x] == old(result[x])
      ensures chain[..blockSize] == if mode == Ecb then old(chain[..blockSize]) else inp[pos..pos + blockSize]
    {
      hide Holds, RoundKeys, Permute, XorBlock;
      var fault;
      assert chain[0..blockSize] == chain[..blockSize];
      match mode {
        case Cbc =>
          fault := CryptBlock(Decrypting, inp, pos, result, pos);
          Xor(result, pos, chain, 0);
          CopyBytes(chain, 0, inp, pos, blockSize);
        case Cfb =>
          fault := CryptBlock(Encrypting, chain, 0, result, pos);
          Xor(result, pos, inp, pos);
          CopyBytes(chain, 0, inp, pos, blockSize);
        case Ecb =>
          fault := CryptBlock(Decrypting, inp, pos, result, pos);
      }
    }

    /** iMode: 1 is CBC, 2 is CFB, anything else ECB. */
    static function ModeOf(iMode: int): Mode {
      if iMode == 1 then Cbc else if iMode == 2 then Cfb else Ecb
    }

    function FaultOf(n: nat): Fault
      reads this
      requires keyInit ==> blockSize > 0
    {
      if !keyInit then NotInitialized else if n == 0 || n % blockSize != 0 then BadDataLength else NoFault
    }

    method Encrypt(inp: array<bv8>, result: array<bv8>, n: nat, iMode: int) returns (fault: Fault)
      requires Valid() && Buffers(inp, result) && n <= inp.Length && n <= result.Length
      modifies result, chain, a, t
      ensures fault == FaultOf(n)
      ensures fault != NoFault ==> result[..] == old(result[..]) && chain[..] == old(chain[..])
      ensures fault == NoFault ==>
                var c := EncryptInto(inp == result, ModeOf(iMode),
                                     Permute(Encrypting, RoundKeys(Encrypting), blockSize),
                                     old(chain[..blockSize]), Cut(blockSize, old(inp[..n])));
                result[..n] == Join(c) && chain[..blockSize] == ChainAfter(ModeOf(iMode), old(chain[..blockSize]), c)
      ensures forall x | n <= x < result.Length :: result[x] == old(result[x])
    {
      hide Holds, RoundKeys, Permute, Cut, Join, EncryptInto;
      if keyInit == false {
        return NotInitialized;
      }
      if 0 == n || n % blockSize != 0 {
        return BadDataLength;
      }
      assert inp[..][..n] == inp[..n];
      EncryptBlocks(ModeOf(iMode), inp, result, n);
      return NoFault;
    }

    /** The bytes of p up to pos are enciphered into result and the chain is where that leaves it. */
    ghost predicate Enciphered(mode: Mode, same: bool, p: seq<bv8>, result: array<bv8>, pos: nat, iv: Block)
      reads this, result, chain
      requires Shape() && Sizes() && pos <= |p| && pos <= result.Length
    {
      var enc := Permute(Encrypting, RoundKeys(Encrypting), blockSize);
      IsEnciphered(same, mode, enc, blockSize, iv, p[..pos], result[..pos], chain[..blockSize])
    }

    lemma NothingEnciphered(mode: Mode, same: bool, p: seq<bv8>, result: array<bv8>)
      requires Shape() && Sizes()
      ensures Enciphered(mode, same, p, result, 0, chain[..blockSize])
    {
      hide RoundKeys, Permute, Cut, Join, EncryptInto;
      var enc := Permute(Encrypting, RoundKeys(Encrypting), blockSize);
      EmptyRun(same, mode, enc, enc, blockSize, chain[..blockSize]);
      assert p[..0] == [] && result[..0] == [];
    }

    method EncryptNext(mode: Mode, inp: array<bv8>, result: array<bv8>, pos: nat, ghost p: seq<bv8>, ghost iv: Block)
      requires Valid() && keyInit && Buffers(inp, result)
      requires pos + blockSize <= inp.Length == |p| && pos + blockSize <= result.Length
      requires inp[pos..] == p[pos..] && Enciphered(mode, inp == result, p, result, pos, iv)
      modifies result, chain, a, t
      ensures Enciphered(mode, inp == result, p, result, pos + blockSize, iv)
      ensures forall x | pos + blockSize <= x < result.Length :: result[x] == old(result[x])
    {
      hide Holds, RoundKeys, Permute, EncryptIntoStep, IsEnciphered;
      ghost var x, out, ch := inp[pos..pos + blockSize], result[..pos], chain[..blockSize];
      ghost var enc := Permute(Encrypting, RoundKeys(Encrypting), blockSize);
      assert x == p[pos..][..blockSize] == p[pos..pos + blockSize];
      EncryptOne(mode, inp, result, pos);
      ghost var y := result[pos..pos + blockSize];
      EncryptExtends(inp == result, mode, enc, blockSize, iv, p[..pos], x, out, ch, y);
      assert Permute(Encrypting, RoundKeys(Encrypting), blockSize) == enc;
      assert p[..pos + blockSize] == p[..pos] + x;
      assert result[..pos + blockSize] == out + y;
    }

    method EncryptBlocks(mode: Mode, inp: array<bv8>, result: array<bv8>, n: nat)
      requires Valid() && keyInit && Buffers(inp, result) && n <= inp.Length && n <= result.Length && n % blockSize == 0
      modifies result, chain, a, t
      ensures Enciphered(mode, inp == result, old(inp[..]), result, n, old(chain[..blockSize]))
      ensures forall x | n <= x < result.Length :: result[x] == old(result[x])
    {
      hide Holds, Enciphered;
      ghost var p, iv := inp[..], chain[..blockSize];
      NothingEnciphered(mode, inp == result, p, result);
      var i := 0;
      while i < n / blockSize
        invariant 0 <= i <= n / blockSize && i * blockSize <= n
        invariant Enciphered(mode, inp == result, p, result, i * blockSize, iv)
        invariant forall x | i * blockSize <= x < result.Length :: result[x] == old(result[x])
        invariant inp[i * blockSize..] == p[i * blockSize..]
      {
        BlockFits(n, blockSize, i);
        EncryptNext(mode, inp, result, i * blockSize, p, iv);
        i := i + 1;
      }
      BlockFits(n, blockSize, i);
    }

    /** The bytes of c up to pos are deciphered into result and the chain is where that leaves it. */
    ghost predicate Deciphered(mode: Mode, same: bool, c: seq<bv8>, result: array<bv8>, pos: nat, iv: Block)
      reads this, result, chain
      requires Shape() && Sizes() && pos <= |c| && pos <= result.Length
    {
      var enc := Permute(Encrypting, RoundKeys(Encrypting), blockSize);
      var dec := Permute(Decrypting, RoundKeys(Decrypting), blockSize);
      IsDeciphered(same, mode, enc, dec, blockSize, iv, c[..pos], result[..pos], chain[..blockSize])
    }

    lemma NothingDeciphered(mode: Mode, same: bool, c: seq<bv8>, result: array<bv8>)
      requires Shape() && Sizes()
      ensures Deciphered(mode, same, c, result, 0, chain[..blockSize])
    {
      hide RoundKeys, Permute, Cut, Join, DecryptInto;
      var enc, dec := Permute(Encrypting, RoundKeys(Encrypting), blockSize),
        Permute(Decrypting, RoundKeys(Decrypting), blockSize);
      EmptyRun(same, mode, enc, dec, blockSize, chain[..blockSize]);
      assert c[..0] == [] && result[..0] == [];
    }

    method DecryptNext(mode: Mode, inp: array<bv8>, result: array<bv8>, pos: nat, ghost c: seq<bv8>, ghost iv: Block)
      requires Valid() && keyInit && Buffers(inp, result)
      requires pos + blockSize <= inp.Length == |c| && pos + blockSize <= result.Length
      requires inp[pos..] == c[pos..] && Deciphered(mode, inp == result, c, result, pos, iv)
      modifies result, chain, a, t
      ensures Deciphered(mode, inp == result, c, result, pos + blockSize, iv)
      ensures forall x | pos + blockSize <= x < result.Length :: result[x] == old(result[x])
    {
      hide Holds, RoundKeys, Permute, DecryptIntoStep, IsDeciphered;
      ghost var x, out, ch := inp[pos..pos + blockSize], result[..pos], chain[..blockSize];
      ghost var enc, dec := Permute(Encrypting, RoundKeys(Encrypting), blockSize),
        Permute(Decrypting, RoundKeys(Decrypting), blockSize);
      assert x == c[pos..][..blockSize] == c[pos..pos + blockSize];
      DecryptOne(mode, inp, result, pos);
      ghost var y := result[pos..pos + blockSize];
      DecryptExtends(inp == result, mode, enc, dec, blockSize, iv, c[..pos], x, out, ch, y);
      assert Permute(Encrypting, RoundKeys(Encrypting), blockSize) == enc;
      assert Permute(Decrypting, RoundKeys(Decrypting), blockSize) == dec;
      assert c[..pos + blockSize] == c[..pos] + x;
      assert result[..pos + blockSize] == out + y;
    }

    method DecryptBlocks(mode: Mode, inp: array<bv8>, result: array<bv8>, n: nat)
      requires Valid() && keyInit && Buffers(inp, result) && n <= inp.Length && n <= result.Length && n % blockSize == 0
      modifies result, chain, a, t
      ensures Deciphered(mode, inp == result, old(inp[..]), result, n, old(chain[..blockSize]))
      ensures forall x | n <= x < result.Length :: result[x] == old(result[x])
    {
      hide Holds, Deciphered;
      ghost var c, iv := inp[..], chain[..blockSize];
      NothingDeciphered(mode, inp == result, c, result);
      var i := 0;
      while i < n / blockSize
        invariant 0 <= i <= n / blockSize && i * blockSize <= n
        invariant Deciphered(mode, inp == result, c, result, i * blockSize, iv)
        invariant forall x | i * blockSize <= x < result.Length :: result[x] == old(result[x])
        invariant inp[i * blockSize..] == c[i * blockSize..]
      {
        BlockFits(n, blockSize, i);
        DecryptNext(mode, inp, result, i * blockSize, c, iv);
        i := i + 1;
      }
      BlockFits(n, blockSize, i);
    }

    method Decrypt(inp: array<bv8>, result: array<bv8>, n: nat, iMode: int) returns (fault: Fault)
      requires Valid() && Buffers(inp, result) && n <= inp.Length && n <= result.Length
      modifies result, chain, a, t
      ensures fault == FaultOf(n)
      ensures fault != NoFault ==> result[..] == old(result[..]) && chain[..] == old(chain[..])
      ensures fault == NoFault ==>
                var c := Cut(blockSize, old(inp[..n]));
                var p := DecryptInto(inp == result, ModeOf(iMode),
                                     Permute(Encrypting, RoundKeys(Encrypting), blockSize),
                                     Permute(Decrypting, RoundKeys(Decrypting), blockSize), old(chain[..blockSize]), c);
                result[..n] == Join(p) &&
                chain[..blockSize] == ChainAfter(ModeOf(iMode), old(chain[..blockSize]), if inp == result then p else c)
      ensures forall x | n <= x < result.Length :: result[x] == old(result[x])
    {
      hide Holds, RoundKeys, Permute, Cut, Join, DecryptInto;
      if keyInit == false {
        return NotInitialized;
      }
      if 0 == n || n % blockSize != 0 {
        return BadDataLength;
      }
      assert inp[..][..n] == inp[..n];
      DecryptBlocks(ModeOf(iMode), inp, result, n);
      return NoFault;
    }

    /** Back to the chain the key was set up with. */
    method ResetChain()
      requires Valid() && blockSize <= 32
      modifies chain
      ensures chain[..blockSize] == chain0[..blockSize]
    {
      CopyBytes(chain, 0, chain0, 0, blockSize);
      assert chain[..blockSize] == chain[0..blockSize] == chain0[0..blockSize] == chain0[..blockSize];
    }
  }

  /** The array holds the round keys, each word packed. */
  ghost predicate Holds(k: array2<bv32>, keys: seq<State>)
    reads k
  {
    |keys| <= k.Length0 &&
    forall r | 0 <= r < |keys| ::
      |keys[r]| <= k.Length1 && forall j | 0 <= j < |keys[r]| :: Unpack(k[r, j]) == keys[r][j]
  }

  // ----- What the modes promise under a key of the class

  lemma PermuteKeepsSize(d: Direction, keys: seq<State>, n: nat)
    requires Length(n)
    ensures KeepsSize(n, Permute(d, keys, n))
  {
  }

  /** Deciphering with the class undoes enciphering with the class, from the same chain. */
  predicate Undone(mode: Mode, key: seq<Word>, n: nat, chain: Block, p: seq<Block>)
    requires |key| > 0
  {
    var keys := Schedule(key, n / 4, Rounds(4 * |key|, n));
    var enc, dec := Permute(Encrypting, keys, n), Permute(Decrypting, DecryptionKeys(keys), n);
    Decrypt(mode, enc, dec, chain, ChainModes.Encrypt(mode, enc, chain, p)) == p
  }

  /** The number of bad rounds of enciphering b and deciphering the result. */
  function BlockBadRounds(keys: seq<State>, b: Block): nat
    requires IsSchedule(keys, |b| / 4)
  {
    |BadRounds(keys, ToState(b))|
  }

  /** A block with no bad round comes back from the class, and a block with one does not. */
  lemma BlockComesBack(keys: seq<State>, n: nat, b: Block)
    requires Length(n) && |b| == n && IsSchedule(keys, n / 4) && BlockBadRounds(keys, b) <= 1
    ensures Permute(Decrypting, DecryptionKeys(keys), n)(Permute(Encrypting, keys, n)(b)) == b <==>
            BlockBadRounds(keys, b) == 0
  {
    hide TableCipher, DecryptionKeys, BadRounds, ToState, ToBytes;
    var s := ToState(b);
    var back := TableCipher(Decrypting, DecryptionKeys(keys), TableCipher(Encrypting, keys, s));
    AtMostOneBadRound(keys, s);
    ToStateInverse(TableCipher(Encrypting, keys, s));
    ToBytesInverse(b);
    ToStateInverse(back);
  }

  /** Under every key and block size some block does not come back. */
  lemma SomeBlockIsLost(keys: seq<State>, n: nat) returns (b: Block)
    requires Length(n) && IsSchedule(keys, n / 4) && |keys| > 2
    ensures |b| == n && Permute(Decrypting, DecryptionKeys(keys), n)(Permute(Encrypting, keys, n)(b)) != b
  {
    hide TableCipher, ToState, ToBytes;
    var p, q := TwoBlocksCollide(keys, n / 4);
    ToStateInverse(p);
    ToStateInverse(q);
    b := if Permute(Decrypting, DecryptionKeys(keys), n)(Permute(Encrypting, keys, n)(ToBytes(p))) == ToBytes(p)
         then ToBytes(q) else ToBytes(p);
  }

  /** Cipher feedback is always undone; the other modes exactly when every block given to the
      block cipher comes back from it. */
  lemma ModesRoundTrip(mode: Mode, key: seq<Word>, n: nat, chain: Block, p: seq<Block>)
    requires Length(4 * |key|) && Length(n) && |chain| == n && Sized(n, p)
    ensures var keys := Schedule(key, n / 4, Rounds(4 * |key|, n));
            Undone(mode, key, n, chain, p) <==>
            Survives(mode, Permute(Encrypting, keys, n), Permute(Decrypting, DecryptionKeys(keys), n), chain, p)
  {
    hide Permute;
    var keys := Schedule(key, n / 4, Rounds(4 * |key|, n));
    PermuteKeepsSize(Encrypting, keys, n);
    PermuteKeepsSize(Decrypting, DecryptionKeys(keys), n);
    RoundTrip(mode, Permute(Encrypting, keys, n), Permute(Decrypting, DecryptionKeys(keys), n), n, chain, p);
  }

  /** The blocks that the class gives to the block cipher in enciphering p. */
  function GivenBlocks(mode: Mode, key: seq<Word>, n: nat, chain: Block, p: seq<Block>): seq<Block>
    requires |key| > 0
  {
    FedBlocks(mode, Permute(Encrypting, Schedule(key, n / 4, Rounds(4 * |key|, n)), n), chain, p)
  }

  /** The bad rounds of block i of those. */
  function BadRoundsOf(mode: Mode, key: seq<Word>, n: nat, chain: Block, p: seq<Block>, i: nat): nat
    requires Length(4 * |key|) && Length(n) && |chain| == n && Sized(n, p) && i < |p|
  {
    var keys := Schedule(key, n / 4, Rounds(4 * |key|, n));
    PermuteKeepsSize(Encrypting, keys, n);
    FedSized(mode, Permute(Encrypting, keys, n), n, chain, p);
    BlockBadRounds(keys, GivenBlocks(mode, key, n, chain, p)[i])
  }

  /** ECB and CBC are undone when no block given to the cipher has a bad round, and not when one has just one. */
  lemma ModesUndone(mode: Mode, key: seq<Word>, n: nat, chain: Block, p: seq<Block>)
    requires mode != Cfb && Length(4 * |key|) && Length(n) && |chain| == n && Sized(n, p)
    ensures (forall i :: 0 <= i < |p| ==> BadRoundsOf(mode, key, n, chain, p, i) == 0) ==>
              Undone(mode, key, n, chain, p)
    ensures (exists i :: 0 <= i < |p| && BadRoundsOf(mode, key, n, chain, p, i) == 1) ==>
              !Undone(mode, key, n, chain, p)
  {
    hide Permute, FedBlocks, Survives, BlockBadRounds, Undone, DecryptionKeys, Schedule;
    var keys := Schedule(key, n / 4, Rounds(4 * |key|, n));
    var enc, dec := Permute(Encrypting, keys, n), Permute(Decrypting, DecryptionKeys(keys), n);
    PermuteKeepsSize(Encrypting, keys, n);
    FedSized(mode, enc, n, chain, p);
    ModesRoundTrip(mode, key, n, chain, p);
    SurvivesIsEveryBlock(mode, enc, dec, chain, p);
    var fed := FedBlocks(mode, enc, chain, p);
    forall i | 0 <= i < |p| && BadRoundsOf(mode, key, n, chain, p, i) <= 1
      ensures dec(enc(fed[i])) == fed[i] <==> BadRoundsOf(mode, key, n, chain, p, i) == 0
    {
      BlockComesBack(keys, n, fed[i]);
    }
  }

  /** With at most one bad round in every block, they are undone exactly when there is none. */
  lemma ModesUndoneExactly(mode: Mode, key: seq<Word>, n: nat, chain: Block, p: seq<Block>)
    requires mode != Cfb && Length(4 * |key|) && Length(n) && |chain| == n && Sized(n, p)
    requires forall i :: 0 <= i < |p| ==> BadRoundsOf(mode, key, n, chain, p, i) <= 1
    ensures Undone(mode, key, n, chain, p) <==>
            forall i :: 0 <= i < |p| ==> BadRoundsOf(mode, key, n, chain, p, i) == 0
  {
    hide BadRoundsOf, Undone;
    ModesUndone(mode, key, n, chain, p);
  }

  /** Under every key, from every chain, ECB and CBC lose some one-block message. */
  lemma SomeMessageIsLost(mode: Mode, key: seq<Word>, n: nat, chain: Block) returns (p: Block)
    requires Length(4 * |key|) && Length(n) && |chain| == n && mode != Cfb
    ensures |p| == n && !Undone(mode, key, n, chain, [p])
  {
    hide Permute, XorBlock;
    var keys := Schedule(key, n / 4, Rounds(4 * |key|, n));
    var b := SomeBlockIsLost(keys, n);
    XorBlockTwice(chain, b);
    p := if mode == Cbc then XorBlock(chain, b) else b;
    ModesRoundTrip(mode, key, n, chain, [p]);
  }
}
