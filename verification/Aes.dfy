// src/common/vscp-aes.c: AES on a 4 by 4 byte matrix held in the output buffer,
// and cipher block chaining over buffers of whole blocks.

module Aes {
  import opened Gf256
  import opened SBox
  import F = Fips197
  import opened ChainModes

  datatype KeyType = Aes128 | Aes192 | Aes256

  /** Key length in words and number of rounds. */
  function Nk(t: KeyType): nat { match t case Aes128 => 4 case Aes192 => 6 case Aes256 => 8 }
  function Nr(t: KeyType): nat { match t case Aes128 => 10 case Aes192 => 12 case Aes256 => 14 }
  function KeyExpSize(t: KeyType): nat { match t case Aes128 => 176 case Aes192 => 208 case Aes256 => 240 }

  /** The sixteen bytes at position at, as four columns. */
  function Matrix(bytes: seq<bv8>, at: nat): (s: F.State)
    requires at + 16 <= |bytes|
    ensures |s| == 4
  {
    F.ToState(bytes[at..at + 16])
  }

  function WordAt(bytes: seq<bv8>, at: nat): Word
    requires at + 4 <= |bytes|
  {
    Word(bytes[at], bytes[at + 1], bytes[at + 2], bytes[at + 3])
  }

  lemma MatrixColumns(bytes: seq<bv8>, at: nat)
    requires at + 16 <= |bytes|
    ensures Matrix(bytes, at) ==
            [WordAt(bytes, at), WordAt(bytes, at + 4), WordAt(bytes, at + 8), WordAt(bytes, at + 12)]
  {
  }

  lemma AddedWord(before: seq<bv8>, after: seq<bv8>, p: nat, rk: seq<bv8>, q: nat)
    requires |before| == |after| && p + 4 <= |before| && q + 4 <= |rk|
    requires forall x | p <= x < p + 4 :: after[x] == Add(before[x], rk[q + (x - p)])
    ensures WordAt(after, p) == WordAt(before, p).Xor(WordAt(rk, q))
  {
    hide Add;
  }

  lemma AddedKey(before: seq<bv8>, after: seq<bv8>, at: nat, rk: seq<bv8>, base: nat, k: F.State)
    requires |before| == |after| && at + 16 <= |before| && base + 16 <= |rk| && |k| == 4
    requires forall i | 0 <= i < 4 :: WordAt(rk, base + 4 * i) == k[i]
    requires forall x | at <= x < at + 16 :: after[x] == Add(before[x], rk[base + (x - at)])
    ensures Matrix(after, at) == F.AddRoundKey(Matrix(before, at), k)
  {
    hide Add, Matrix, WordAt, Word.Xor;
    MatrixColumns(before, at);
    MatrixColumns(after, at);
    assert WordAt(rk, base + 4 * 0) == k[0] && WordAt(rk, base + 4 * 1) == k[1];
    assert WordAt(rk, base + 4 * 2) == k[2] && WordAt(rk, base + 4 * 3) == k[3];
    AddedWord(before, after, at, rk, base);
    AddedWord(before, after, at + 4, rk, base + 4);
    AddedWord(before, after, at + 8, rk, base + 8);
    AddedWord(before, after, at + 12, rk, base + 12);
  }

  /** The row of the state that position x holds, 4 outside the state. */
  function RowOf(x: int, at: nat): (r: nat)
    ensures r <= 4 && (r < 4 <==> at <= x < at + 16)
  {
    if at <= x < at + 16 then (x - at) % 4 else 4
  }

  lemma PlaceInRow(x: int, at: nat, i: nat, j: nat)
    requires i < 4 && j < 4
    ensures RowOf(x, at) == i && at + 4 * j <= x < at + 4 * (j + 1) <==> x == at + 4 * j + i
  {
  }

  lemma Substituted(before: seq<bv8>, after: seq<bv8>, at: nat)
    requires |before| == |after| && at + 16 <= |before|
    ensures (forall x | at <= x < at + 16 :: after[x] == Sub(before[x])) ==>
            Matrix(after, at) == F.SubBytes(Matrix(before, at))
    ensures (forall x | at <= x < at + 16 :: after[x] == InvSub(before[x])) ==>
            Matrix(after, at) == F.InvSubBytes(Matrix(before, at))
  {
    hide Sub, InvSub, Matrix;
    MatrixColumns(before, at);
    MatrixColumns(after, at);
  }

  /** The rows of four columns rotated one way and the other. */
  lemma RotatedMatrix(s: F.State)
    requires |s| == 4
    ensures F.ShiftRows(s) == [Word(s[0].b0, s[1].b1, s[2].b2, s[3].b3), Word(s[1].b0, s[2].b1, s[3].b2, s[0].b3),
                               Word(s[2].b0, s[3].b1, s[0].b2, s[1].b3), Word(s[3].b0, s[0].b1, s[1].b2, s[2].b3)]
    ensures F.InvShiftRows(s) == [Word(s[0].b0, s[3].b1, s[2].b2, s[1].b3), Word(s[1].b0, s[0].b1, s[3].b2, s[2].b3),
                                  Word(s[2].b0, s[1].b1, s[0].b2, s[3].b3), Word(s[3].b0, s[2].b1, s[1].b2, s[0].b3)]
  {
  }

  function Turned(i: nat, shift: nat): (j: nat)
    requires i < 4 && shift < 4
    ensures j < 4
  {
    if i + shift < 4 then i + shift else i + shift - 4
  }

  /** Column i of the row has become column i + shift, and nothing else has changed. */
  predicate RowMoved(b: seq<bv8>, c: seq<bv8>, at: nat, row: nat, shift: nat)
    requires at + 16 <= |b| && row < 4 && shift < 4
  {
    |c| == |b| &&
    c[at + row] == b[at + 4 * Turned(0, shift) + row] && c[at + 4 + row] == b[at + 4 * Turned(1, shift) + row] &&
    c[at + 8 + row] == b[at + 4 * Turned(2, shift) + row] && c[at + 12 + row] == b[at + 4 * Turned(3, shift) + row] &&
    forall x | 0 <= x < |b| && x != at + row && x != at + 4 + row && x != at + 8 + row &&
      x != at + 12 + row :: c[x] == b[x]
  }

  /** The first n columns are the images of the old ones under f, the rest of the buffer is as before. */
  predicate ColumnsMapped(b: seq<bv8>, c: seq<bv8>, at: nat, n: nat, f: Word -> Word)
    requires at + 16 <= |b| && n <= 4
  {
    |c| == |b| && (forall x | 0 <= x < |b| && !(at <= x < at + 4 * n) :: c[x] == b[x]) &&
    (n > 0 ==> WordAt(c, at) == f(WordAt(b, at))) && (n > 1 ==> WordAt(c, at + 4) == f(WordAt(b, at + 4))) &&
    (n > 2 ==> WordAt(c, at + 8) == f(WordAt(b, at + 8))) && (n > 3 ==> WordAt(c, at + 12) == f(WordAt(b, at + 12)))
  }

  predicate ColumnChanged(b: seq<bv8>, c: seq<bv8>, p: nat, w: Word)
    requires p + 4 <= |b|
  {
    |c| == |b| && WordAt(c, p) == w && forall x | 0 <= x < |b| && !(p <= x < p + 4) :: c[x] == b[x]
  }

  lemma OneMoreColumn(b: seq<bv8>, c: seq<bv8>, d: seq<bv8>, at: nat, n: nat, f: Word -> Word)
    requires at + 16 <= |b| && n < 4 && ColumnsMapped(b, c, at, n, f)
    requires ColumnChanged(c, d, at + 4 * n, f(WordAt(c, at + 4 * n)))
    ensures ColumnsMapped(b, d, at, n + 1, f)
  {
    assert WordAt(c, at + 4 * n) == WordAt(b, at + 4 * n);
    if n > 0 { assert WordAt(d, at) == WordAt(c, at); }
    if n > 1 { assert WordAt(d, at + 4) == WordAt(c, at + 4); }
    if n > 2 { assert WordAt(d, at + 8) == WordAt(c, at + 8); }
  }

  lemma AllColumnsMapped(b: seq<bv8>, c: seq<bv8>, at: nat)
    requires at + 16 <= |b|
    ensures ColumnsMapped(b, c, at, 4, w => MixColumn(w)) ==> Matrix(c, at) == F.MixColumns(Matrix(b, at))
    ensures ColumnsMapped(b, c, at, 4, w => InvMixColumn(w)) ==> Matrix(c, at) == F.InvMixColumns(Matrix(b, at))
  {
    hide MixColumn, InvMixColumn, Matrix, WordAt;
    MatrixColumns(b, at);
    if ColumnsMapped(b, c, at, 4, w => MixColumn(w)) || ColumnsMapped(b, c, at, 4, w => InvMixColumn(w)) {
      MatrixColumns(c, at);
    }
  }

  lemma RowsMoved(b: seq<bv8>, b1: seq<bv8>, b2: seq<bv8>, b3: seq<bv8>, at: nat, shift1: nat, shift3: nat)
    requires at + 16 <= |b| && (shift1 == 1 || shift1 == 3) && shift3 == 4 - shift1
    requires RowMoved(b, b1, at, 1, shift1) && RowMoved(b1, b2, at, 2, 2) && RowMoved(b2, b3, at, 3, shift3)
    ensures Matrix(b3, at) == if shift1 == 1 then F.ShiftRows(Matrix(b, at)) else F.InvShiftRows(Matrix(b, at))
    ensures forall x | 0 <= x < |b| && !(at <= x < at + 16) :: b3[x] == b[x]
  {
    hide Matrix, F.ShiftRows, F.InvShiftRows;
    MatrixColumns(b, at);
    MatrixColumns(b3, at);
    RotatedMatrix(Matrix(b, at));
  }

  /** One byte of a column as MixColumns computes it, all being the sum of the column. */
  function MixedByte(b: bv8, next: bv8, all: bv8): bv8 {
    Add(b, Add(XTime(Add(b, next)), all))
  }

  function SumOf(w: Word): bv8 {
    Add(Add(Add(w.b0, w.b1), w.b2), w.b3)
  }

  lemma Cancel(a: bv8, b: bv8, c: bv8, d: bv8, u: bv8, v: bv8)
    ensures Add(a, Add(Add(u, v), Add(Add(Add(a, b), c), d))) == Add(Add(u, Add(b, v)), Add(c, d))
  {
  }

  lemma MixedRow(w: Word)
    ensures Dot(w, Word(2, 3, 1, 1)) == MixedByte(w.b0, w.b1, SumOf(w))
  {
    hide Add, Multiply, XTime;
    SmallMultiples(w.b0);
    SmallMultiples(w.b1);
    SmallMultiples(w.b2);
    SmallMultiples(w.b3);
    XTimeLinear(w.b0, w.b1);
    Cancel(w.b0, w.b1, w.b2, w.b3, XTime(w.b0), XTime(w.b1));
  }

  function Back(w: Word): Word {
    Word(w.b1, w.b2, w.b3, w.b0)
  }

  lemma SumRotates(w: Word)
    ensures SumOf(Back(w)) == SumOf(w)
  {
    hide Add;
    AddAssociates(w.b1, w.b2, w.b3);
    AddCommutes(Add(Add(w.b1, w.b2), w.b3), w.b0);
    AddAssociates(w.b0, w.b1, Add(w.b2, w.b3));
    AddAssociates(Add(w.b0, w.b1), w.b2, w.b3);
  }

  /** The column transformation as the code computes it. */
  lemma MixedColumn(w: Word)
    ensures MixColumn(w) == var all := SumOf(w);
            Word(MixedByte(w.b0, w.b1, all), MixedByte(w.b1, w.b2, all), MixedByte(w.b2, w.b3, all),
                 MixedByte(w.b3, w.b0, all))
  {
    hide Dot, MixedByte, SumOf;
    var c, w1 := Word(2, 3, 1, 1), Back(w);
    var w2 := Back(w1);
    var w3 := Back(w2);
    MixedRow(w);
    MixedRow(w1);
    MixedRow(w2);
    MixedRow(w3);
    SumRotates(w);
    SumRotates(w1);
    SumRotates(w2);
    DotRotates(w1, c);
    DotRotates(w2, c);
    DotRotates(w2, Rotate(c));
    DotRotates(w1, Rotate(c));
    DotRotates(w3, c);
    DotRotates(w2, Rotate(c));
    DotRotates(w1, Rotate(Rotate(c)));
  }

  /** One byte of a column as InvMixColumns computes it, summed from the left. */
  function Unmixed(w: Word, c0: bv8, c1: bv8, c2: bv8, c3: bv8): bv8 {
    Add(Add(Add(Multiply(w.b0, c0), Multiply(w.b1, c1)), Multiply(w.b2, c2)), Multiply(w.b3, c3))
  }

  lemma UnmixedByte(w: Word, c: Word)
    ensures Dot(w, c) == Unmixed(w, c.b0, c.b1, c.b2, c.b3)
  {
    hide Add, Multiply;
    AddAssociates(Add(Multiply(w.b0, c.b0), Multiply(w.b1, c.b1)), Multiply(w.b2, c.b2), Multiply(w.b3, c.b3));
  }

  lemma UnmixedColumn(w: Word)
    ensures InvMixColumn(w) == Word(Unmixed(w, 0xe, 0xb, 0xd, 0x9), Unmixed(w, 0x9, 0xe, 0xb, 0xd),
                                    Unmixed(w, 0xd, 0x9, 0xe, 0xb), Unmixed(w, 0xb, 0xd, 0x9, 0xe))
  {
    hide Dot, Unmixed;
    UnmixedByte(w, Word(0xe, 0xb, 0xd, 0x9));
    UnmixedByte(w, Word(0x9, 0xe, 0xb, 0xd));
    UnmixedByte(w, Word(0xd, 0x9, 0xe, 0xb));
    UnmixedByte(w, Word(0xb, 0xd, 0x9, 0xe));
  }

  class AesState {
    const keyType: KeyType
    const roundKey: array<bv8>
    /** The matrix is the sixteen bytes of buffer from position at on. */
    var buffer: array<bv8>
    var at: nat
    ghost var key: seq<Word>

    ghost predicate Shape()
      reads this
    {
      roundKey.Length == KeyExpSize(keyType) && buffer != roundKey && at + 16 <= buffer.Length && |key| == Nk(keyType)
    }

    ghost function State(): F.State
      requires Shape()
      reads this, buffer
    {
      Matrix(buffer[..], at)
    }

    ghost function Keys(): (keys: seq<F.State>)
      requires Shape()
      reads this
      ensures F.IsSchedule(keys, 4) && |keys| == Nr(keyType) + 1
    {
      F.Schedule(key, 4, Nr(keyType))
    }

    /** The round key array holds the first n words of the expanded key. */
    ghost predicate ExpandedTo(n: nat)
      requires Shape() && n <= 4 * (Nr(keyType) + 1)
      reads this, roundKey
    {
      forall i | 0 <= i < n :: WordAt(roundKey[..], 4 * i) == F.Expanded(key, i)
    }

    ghost predicate Valid()
      reads this, roundKey
    {
      Shape() && ExpandedTo(4 * (Nr(keyType) + 1))
    }

    /** Only the matrix of the buffer has changed. */
    twostate predicate Framed()
      requires old(Shape()) && Shape()
      reads this, buffer
    {
      buffer == old(buffer) && at == old(at) && key == old(key) &&
      forall x | 0 <= x < buffer.Length && !(at <= x < at + 16) :: buffer[x] == old(buffer[x])
    }

    method AddRoundKey(round: nat)
      requires Valid() && round <= Nr(keyType)
      modifies buffer
      ensures Valid() && Framed()
      ensures State() == F.AddRoundKey(old(State()), Keys()[round])
    {
      hide Add, F.Schedule, F.Expanded;
      var i := 0;
      while i < 4
        invariant 0 <= i <= 4
        invariant forall x | 0 <= x < buffer.Length ::
                    buffer[x] == if at <= x < at + 4 * i then Add(old(buffer[x]), roundKey[round * 16 + (x - at)])
                      else old(buffer[x])
      {
        var j := 0;
        while j < 4
          invariant 0 <= j <= 4
          invariant forall x | 0 <= x < buffer.Length ::
                      buffer[x] == if at <= x < at + 4 * i + j then Add(old(buffer[x]), roundKey[round * 16 + (x - at)])
                        else old(buffer[x])
        {
          buffer[at + 4 * i + j] := Add(buffer[at + 4 * i + j], roundKey[round * 4 * 4 + i * 4 + j]);
          j := j + 1;
        }
        i := i + 1;
      }
      RoundKeyWords(round);
      AddedKey(old(buffer[..]), buffer[..], at, roundKey[..], 16 * round, Keys()[round]);
    }

    lemma RoundKeyWords(round: nat)
      requires Valid() && round <= Nr(keyType)
      ensures forall i | 0 <= i < 4 :: WordAt(roundKey[..], 16 * round + 4 * i) == Keys()[round][i]
    {
      hide F.Expanded, WordAt;
      forall i | 0 <= i < 4 ensures WordAt(roundKey[..], 16 * round + 4 * i) == Keys()[round][i] {
        assert WordAt(roundKey[..], 4 * (4 * round + i)) == F.Expanded(key, 4 * round + i);
      }
    }

    method SubBytes()
      requires Valid()
      modifies buffer
      ensures Valid() && Framed() && State() == F.SubBytes(old(State()))
    {
      hide Sub, Matrix, F.Expanded, RowOf;
      ghost var before := buffer[..];
      var i := 0;
      while i < 4
        invariant 0 <= i <= 4
        invariant forall x | 0 <= x < buffer.Length :: buffer[x] == if RowOf(x, at) < i then Sub(before[x])
                  else before[x]
      {
        SubRow(i);
        i := i + 1;
      }
      Substituted(before, buffer[..], at);
    }

    method SubRow(i: nat)
      requires Shape() && i < 4
      modifies buffer
      ensures forall x | 0 <= x < buffer.Length :: buffer[x] == if RowOf(x, at) == i then Sub(old(buffer[x]))
              else old(buffer[x])
    {
      hide Sub, RowOf;
      ghost var before := buffer[..];
      var j := 0;
      while j < 4
        invariant 0 <= j <= 4
        invariant forall x | 0 <= x < buffer.Length ::
                    buffer[x] == if RowOf(x, at) == i && x < at + 4 * j then Sub(before[x]) else before[x]
      {
        forall x | 0 <= x < buffer.Length
          ensures RowOf(x, at) == i && at + 4 * j <= x < at + 4 * (j + 1) <==> x == at + 4 * j + i
        {
          PlaceInRow(x, at, i, j);
        }
        buffer[at + 4 * j + i] := Sub(buffer[at + 4 * j + i]);
        j := j + 1;
      }
    }

    method InvSubBytes()
      requires Valid()
      modifies buffer
      ensures Valid() && Framed() && State() == F.InvSubBytes(old(State()))
    {
      hide InvSub, Matrix, F.Expanded, RowOf;
      ghost var before := buffer[..];
      var i := 0;
      while i < 4
        invariant 0 <= i <= 4
        invariant forall x | 0 <= x < buffer.Length :: buffer[x] == if RowOf(x, at) < i then InvSub(before[x])
                  else before[x]
      {
        InvSubRow(i);
        i := i + 1;
      }
      Substituted(before, buffer[..], at);
    }

    method InvSubRow(i: nat)
      requires Shape() && i < 4
      modifies buffer
      ensures forall x | 0 <= x < buffer.Length :: buffer[x] == if RowOf(x, at) == i then InvSub(old(buffer[x]))
              else old(buffer[x])
    {
      hide InvSub, RowOf;
      ghost var before := buffer[..];
      var j := 0;
      while j < 4
        invariant 0 <= j <= 4
        invariant forall x | 0 <= x < buffer.Length ::
                    buffer[x] == if RowOf(x, at) == i && x < at + 4 * j then InvSub(before[x]) else before[x]
      {
        forall x | 0 <= x < buffer.Length
          ensures RowOf(x, at) == i && at + 4 * j <= x < at + 4 * (j + 1) <==> x == at + 4 * j + i
        {
          PlaceInRow(x, at, i, j);
        }
        buffer[at + 4 * j + i] := InvSub(buffer[at + 4 * j + i]);
        j := j + 1;
      }
    }

    /** A row one column to the left. */
    method RowLeft(row: nat)
      requires Valid() && row < 4
      modifies buffer
      ensures Valid() && RowMoved(old(buffer[..]), buffer[..], at, row, 1)
    {
      hide F.Expanded;
      var temp := buffer[at + row];
      buffer[at + row] := buffer[at + 4 + row];
      buffer[at + 4 + row] := buffer[at + 8 + row];
      buffer[at + 8 + row] := buffer[at + 12 + row];
      buffer[at + 12 + row] := temp;
    }

    /** A row one column to the right. */
    method RowRight(row: nat)
      requires Valid() && row < 4
      modifies buffer
      ensures Valid() && RowMoved(old(buffer[..]), buffer[..], at, row, 3)
    {
      hide F.Expanded;
      var temp := buffer[at + 12 + row];
      buffer[at + 12 + row] := buffer[at + 8 + row];
      buffer[at + 8 + row] := buffer[at + 4 + row];
      buffer[at + 4 + row] := buffer[at + row];
      buffer[at + row] := temp;
    }

    /** A row two columns, by two exchanges. */
    method RowHalf(row: nat)
      requires Valid() && row < 4
      modifies buffer
      ensures Valid() && RowMoved(old(buffer[..]), buffer[..], at, row, 2)
    {
      hide F.Expanded;
      var temp := buffer[at + row];
      buffer[at + row] := buffer[at + 8 + row];
      buffer[at + 8 + row] := temp;
      temp := buffer[at + 4 + row];
      buffer[at + 4 + row] := buffer[at + 12 + row];
      buffer[at + 12 + row] := temp;
    }

    method ShiftRows()
      requires Valid()
      modifies buffer
      ensures Valid() && Framed() && State() == F.ShiftRows(old(State()))
    {
      hide Matrix, F.Expanded, F.ShiftRows, RowMoved;
      ghost var b := buffer[..];
      RowLeft(1);
      ghost var b1 := buffer[..];
      RowHalf(2);
      ghost var b2 := buffer[..];
      RowRight(3);
      RowsMoved(b, b1, b2, buffer[..], at, 1, 3);
    }

    method InvShiftRows()
      requires Valid()
      modifies buffer
      ensures Valid() && Framed() && State() == F.InvShiftRows(old(State()))
    {
      hide Matrix, F.Expanded, F.InvShiftRows, RowMoved;
      ghost var b := buffer[..];
      RowRight(1);
      ghost var b1 := buffer[..];
      RowHalf(2);
      ghost var b2 := buffer[..];
      RowLeft(3);
      RowsMoved(b, b1, b2, buffer[..], at, 3, 1);
    }

    /** One column of MixColumns, in place. */
    method MixOne(c: nat)
      requires Valid() && c + 4 <= buffer.Length
      modifies buffer
      ensures Valid() && ColumnChanged(old(buffer[..]), buffer[..], c, MixColumn(WordAt(old(buffer[..]), c)))
    {
      hide F.Expanded, MixColumn, MixedByte, SumOf;
      MixedColumn(WordAt(buffer[..], c));
      var t := buffer[c];
      var all := SumOf(Word(buffer[c], buffer[c + 1], buffer[c + 2], buffer[c + 3]));
      buffer[c] := MixedByte(buffer[c], buffer[c + 1], all);
      buffer[c + 1] := MixedByte(buffer[c + 1], buffer[c + 2], all);
      buffer[c + 2] := MixedByte(buffer[c + 2], buffer[c + 3], all);
      buffer[c + 3] := MixedByte(buffer[c + 3], t, all);
    }

    method UnmixOne(c: nat)
      requires Valid() && c + 4 <= buffer.Length
      modifies buffer
      ensures Valid() && ColumnChanged(old(buffer[..]), buffer[..], c, InvMixColumn(WordAt(old(buffer[..]), c)))
    {
      hide F.Expanded, InvMixColumn, Unmixed;
      UnmixedColumn(WordAt(buffer[..], c));
      var w := Word(buffer[c], buffer[c + 1], buffer[c + 2], buffer[c + 3]);
      buffer[c] := Unmixed(w, 0xe, 0xb, 0xd, 0x9);
      buffer[c + 1] := Unmixed(w, 0x9, 0xe, 0xb, 0xd);
      buffer[c + 2] := Unmixed(w, 0xd, 0x9, 0xe, 0xb);
      buffer[c + 3] := Unmixed(w, 0xb, 0xd, 0x9, 0xe);
    }

    method MixColumns()
      requires Valid()
      modifies buffer
      ensures Valid() && Framed() && State() == F.MixColumns(old(State()))
    {
      hide Matrix, WordAt, MixColumn, ColumnChanged, F.Expanded;
      ghost var b := buffer[..];
      var i := 0;
      while i < 4
        invariant 0 <= i <= 4 && ColumnsMapped(b, buffer[..], at, i, w => MixColumn(w)) && Valid()
      {
        ghost var c := buffer[..];
        MixOne(at + 4 * i);
        OneMoreColumn(b, c, buffer[..], at, i, w => MixColumn(w));
        i := i + 1;
      }
      AllColumnsMapped(b, buffer[..], at);
    }

    method InvMixColumns()
      requires Valid()
      modifies buffer
      ensures Valid() && Framed() && State() == F.InvMixColumns(old(State()))
    {
      hide Matrix, WordAt, InvMixColumn, ColumnChanged, F.Expanded;
      ghost var b := buffer[..];
      var i := 0;
      while i < 4
        invariant 0 <= i <= 4 && ColumnsMapped(b, buffer[..], at, i, w => InvMixColumn(w)) && Valid()
      {
        ghost var c := buffer[..];
        UnmixOne(at + 4 * i);
        OneMoreColumn(b, c, buffer[..], at, i, w => InvMixColumn(w));
        i := i + 1;
      }
      AllColumnsMapped(b, buffer[..], at);
    }

    method Cipher()
      requires Valid()
      modifies buffer
      ensures Valid() && Framed() && State() == F.Cipher(Keys(), old(State()))
    {
      hide Matrix, F.Expanded, F.Schedule, F.AddRoundKey, F.SubBytes, F.ShiftRows, F.MixColumns, ExpandedTo;
      ghost var keys, s := Keys(), State();
      AddRoundKey(0);
      var round := 1;
      while round < Nr(keyType)
        invariant 1 <= round <= Nr(keyType) && Valid() && Framed()
        invariant State() == F.Forward(keys, s, round - 1)
      {
        SubBytes();
        ShiftRows();
        MixColumns();
        AddRoundKey(round);
        round := round + 1;
      }
      SubBytes();
      ShiftRows();
      AddRoundKey(Nr(keyType));
    }

    method InvCipher()
      requires Valid()
      modifies buffer
      ensures Valid() && Framed() && State() == F.InvCipher(Keys(), old(State()))
    {
      hide Matrix, F.Expanded, F.Schedule, F.AddRoundKey, F.InvSubBytes, F.InvShiftRows, F.InvMixColumns, ExpandedTo;
      ghost var keys, s := Keys(), State();
      AddRoundKey(Nr(keyType));
      var round := Nr(keyType) - 1;
      while round > 0
        invariant 0 <= round < Nr(keyType) && Valid() && Framed()
        invariant State() == F.Backward(keys, s, round + 1)
      {
        InvShiftRows();
        InvSubBytes();
        AddRoundKey(round);
        InvMixColumns();
        round := round - 1;
      }
      InvShiftRows();
      InvSubBytes();
      AddRoundKey(0);
    }

    constructor (t: KeyType, output: array<bv8>)
      requires output.Length >= 16
      ensures Shape() && keyType == t && buffer == output && at == 0 && fresh(roundKey)
    {
      keyType := t;
      roundKey := new bv8[KeyExpSize(t)];
      buffer, at := output, 0;
      key := seq(Nk(t), i => Word(0, 0, 0, 0));
    }

    method WriteWord(i: nat, w: Word)
      requires Shape() && i < 4 * (Nr(keyType) + 1) && ExpandedTo(i) && w == F.Expanded(key, i)
      modifies roundKey
      ensures ExpandedTo(i + 1)
    {
      hide F.Expanded;
      roundKey[i * 4] := w.b0;
      roundKey[i * 4 + 1] := w.b1;
      roundKey[i * 4 + 2] := w.b2;
      roundKey[i * 4 + 3] := w.b3;
    }

    method ReadWord(i: nat) returns (w: Word)
      requires Shape() && 4 * i + 4 <= roundKey.Length
      ensures w == WordAt(roundKey[..], 4 * i)
    {
      w := Word(roundKey[i * 4], roundKey[i * 4 + 1], roundKey[i * 4 + 2], roundKey[i * 4 + 3]);
    }

    /** The word added to word i - Nk, from its predecessor. */
    method NextWord(i: nat) returns (tempa: Word)
      requires Shape() && Nk(keyType) <= i < 4 * (Nr(keyType) + 1) && ExpandedTo(i)
      ensures tempa == F.Evolved(Nk(keyType), i, F.Expanded(key, i - 1))
    {
      hide F.Expanded, F.SubWord, F.Rcon, WordAt, Word.Xor, Add;
      tempa := ReadWord(i - 1);
      var nk := Nk(keyType);
      if i % nk == 0 {
        tempa := F.SubWord(F.RotWord(tempa));
        tempa := tempa.Xor(Word(F.Rcon(i / nk), 0, 0, 0));
      }
      if keyType == Aes256 {
        if i % nk == 4 {
          tempa := F.SubWord(tempa);
        }
      }
    }

    /** Fills the round key array, to its last byte. */
    method KeyExpansion(k: array<bv8>)
      requires Shape() && k != roundKey && 4 * Nk(keyType) <= k.Length
      modifies roundKey, `key
      ensures Valid() && key == F.ToState(k[..4 * Nk(keyType)])
    {
      hide F.Expanded, F.Evolved, WordAt, Word.Xor;
      key := F.ToState(k[..4 * Nk(keyType)]);
      var i := 0;
      while i < Nk(keyType)
        invariant 0 <= i <= Nk(keyType) && ExpandedTo(i)
        modifies roundKey
      {
        KeyWord(key, i);
        WriteWord(i, Word(k[i * 4], k[i * 4 + 1], k[i * 4 + 2], k[i * 4 + 3]));
        i := i + 1;
      }
      while i < 4 * (Nr(keyType) + 1)
        invariant Nk(keyType) <= i <= 4 * (Nr(keyType) + 1) && ExpandedTo(i)
        modifies roundKey
      {
        var tempa := NextWord(i);
        var before := ReadWord(i - Nk(keyType));
        LaterWord(key, i);
        WriteWord(i, before.Xor(tempa));
        i := i + 1;
      }
    }
  }

  lemma KeyWord(key: seq<Word>, i: nat)
    requires i < |key|
    ensures F.Expanded(key, i) == key[i]
  {
  }

  lemma LaterWord(key: seq<Word>, i: nat)
    requires 0 < |key| <= i
    ensures F.Expanded(key, i) == F.Expanded(key, i - |key|).Xor(F.Evolved(|key|, i, F.Expanded(key, i - 1)))
  {
  }

  // ----- Cipher block chaining

  function KeySchedule(t: KeyType, k: seq<bv8>): (keys: seq<F.State>)
    requires |k| == 4 * Nk(t)
    ensures F.IsSchedule(keys, 4)
  {
    F.Schedule(F.ToState(k), 4, Nr(t))
  }

  function Enciphering(keys: seq<F.State>): Permutation {
    (b: Block) => if |b| == 16 && F.IsSchedule(keys, 4) then F.ToBytes(F.Cipher(keys, F.ToState(b))) else b
  }

  function Deciphering(keys: seq<F.State>): Permutation {
    (b: Block) => if |b| == 16 && F.IsSchedule(keys, 4) then F.ToBytes(F.InvCipher(keys, F.ToState(b))) else b
  }

  lemma DecipheringInverts(keys: seq<F.State>, b: Block)
    requires F.IsSchedule(keys, 4)
    ensures Deciphering(keys)(Enciphering(keys)(b)) == b
  {
    hide F.Cipher, F.InvCipher, F.ToState, F.ToBytes;
    if |b| == 16 {
      F.InvCipherUndoesCipher(keys, F.ToState(b));
      F.ToStateInverse(F.Cipher(keys, F.ToState(b)));
      F.ToBytesInverse(b);
    }
  }

  lemma {:induction false} AllSurvive(keys: seq<F.State>, chain: Block, p: seq<Block>)
    requires F.IsSchedule(keys, 4)
    ensures Survives(Cbc, Enciphering(keys), Deciphering(keys), chain, p)
  {
    hide Enciphering, Deciphering;
    if p != [] {
      var q := p[..|p| - 1];
      AllSurvive(keys, chain, q);
      DecipheringInverts(keys, Fed(Cbc, Last(chain, Encrypt(Cbc, Enciphering(keys), chain, q)), p[|p| - 1]));
    }
  }

  lemma KeepSize(keys: seq<F.State>)
    ensures KeepsSize(16, Enciphering(keys)) && KeepsSize(16, Deciphering(keys))
  {
  }

  /** For every key, initial vector and whole number of blocks, deciphering gives back the plaintext. */
  lemma CbcRoundTrip(t: KeyType, k: seq<bv8>, iv: Block, p: seq<bv8>)
    requires |k| == 4 * Nk(t) && |iv| == 16 && |p| % 16 == 0
    ensures var enc, dec := Enciphering(KeySchedule(t, k)), Deciphering(KeySchedule(t, k));
            var c := Join(Encrypt(Cbc, enc, iv, Cut(16, p)));
            |c| == |p| && Join(Decrypt(Cbc, enc, dec, iv, Cut(16, c))) == p
  {
    hide Enciphering, Deciphering, KeySchedule, Cut, Join, Encrypt, Decrypt;
    var keys := KeySchedule(t, k);
    var c := Encrypt(Cbc, Enciphering(keys), iv, Cut(16, p));
    KeepSize(keys);
    AllSurvive(keys, iv, Cut(16, p));
    RoundTrip(Cbc, Enciphering(keys), Deciphering(keys), 16, iv, Cut(16, p));
    EncryptSized(Cbc, Enciphering(keys), 16, iv, Cut(16, p));
    CutJoin(16, c);
    JoinLength(c);
    JoinCut(p);
  }

  /** What enciphering leaves in the input buffer: each block plus the chain before it. */
  function Whitened(enc: Permutation, iv: Block, p: seq<Block>): seq<Block> {
    if p == [] then [] else
      var q := p[..|p| - 1];
      Whitened(enc, iv, q) + [XorBlock(p[|p| - 1], Last(iv, Encrypt(Cbc, enc, iv, q)))]
  }

  /** buf ^= iv over one block. */
  method XorWithIv(buf: array<bv8>, at: nat, iv: array<bv8>, ivAt: nat)
    requires buf != iv && at + 16 <= buf.Length && ivAt + 16 <= iv.Length
    modifies buf
    ensures buf[at..at + 16] == XorBlock(old(buf[at..at + 16]), iv[ivAt..ivAt + 16])
    ensures forall x | 0 <= x < buf.Length && !(at <= x < at + 16) :: buf[x] == old(buf[x])
  {
    hide Add, XorBlock;
    ghost var before := buf[..];
    var i := 0;
    while i < 16
      invariant 0 <= i <= 16
      invariant forall x | 0 <= x < buf.Length ::
                  buf[x] == if at <= x < at + i then Add(before[x], iv[ivAt + (x - at)]) else before[x]
    {
      buf[at + i] := Add(buf[at + i], iv[ivAt + i]);
      i := i + 1;
    }
    XorBlockInPlace(before, buf[..], at, iv[..], ivAt, 16);
    assert buf[..][at..at + 16] == buf[at..at + 16];
    assert before[at..at + 16] == old(buf[at..at + 16]) && iv[..][ivAt..ivAt + 16] == iv[ivAt..ivAt + 16];
  }

  method CopyBlock(to: array<bv8>, from: array<bv8>, at: nat)
    requires to != from && at + 16 <= to.Length && at + 16 <= from.Length
    modifies to
    ensures to[at..at + 16] == from[at..at + 16]
    ensures forall x | 0 <= x < to.Length && !(at <= x < at + 16) :: to[x] == old(to[x])
  {
    forall i | 0 <= i < 16 { to[at + i] := from[at + i]; }
  }

  /** Runs the cipher, or its inverse, on the block of the state's buffer at position at. */
  method CipherBlock(state: AesState, at: nat, inverse: bool)
    requires state.Valid() && at + 16 <= state.buffer.Length
    modifies state`at, state.buffer
    ensures state.Valid() && state.buffer == old(state.buffer) && state.key == old(state.key)
    ensures !inverse ==> state.buffer[at..at + 16] == Enciphering(state.Keys())(old(state.buffer[at..at + 16]))
    ensures inverse ==> state.buffer[at..at + 16] == Deciphering(state.Keys())(old(state.buffer[at..at + 16]))
    ensures forall x | 0 <= x < state.buffer.Length && !(at <= x < at + 16) :: state.buffer[x] == old(state.buffer[x])
  {
    hide F.ToState, F.ToBytes, F.Cipher, F.InvCipher, F.Schedule;
    F.ToBytesInverse(state.buffer[at..at + 16]);
    assert state.buffer[..][at..at + 16] == state.buffer[at..at + 16];
    state.at := at;
    if inverse {
      state.InvCipher();
    } else {
      state.Cipher();
    }
    assert state.buffer[..][at..at + 16] == state.buffer[at..at + 16];
    F.ToBytesInverse(state.buffer[at..at + 16]);
  }

  /** Input and output of chaining after pos bytes; p0 is what the input held. */
  ghost predicate Enciphered(enc: Permutation, iv: Block, p: seq<bv8>, input: seq<bv8>, output: seq<bv8>,
                             chain: Block) {
    var c := Encrypt(Cbc, enc, iv, Cut(16, p));
    output == Join(c) && input == Join(Whitened(enc, iv, Cut(16, p))) && chain == Last(iv, c)
  }

  lemma EncipheredNothing(enc: Permutation, iv: Block)
    ensures Enciphered(enc, iv, [], [], [], iv)
  {
  }

  lemma EncipheredMore(enc: Permutation, iv: Block, p: seq<bv8>, x: Block, input: seq<bv8>, output: seq<bv8>,
                       chain: Block)
    requires |x| == 16 && |chain| == 16 && Enciphered(enc, iv, p, input, output, chain)
    ensures var w := XorBlock(x, chain);
            Enciphered(enc, iv, p + x, input + w, output + enc(w), enc(w))
  {
    hide Cut, Join;
    var b, w := Cut(16, p), XorBlock(x, chain);
    var c := Encrypt(Cbc, enc, iv, b);
    CutSnoc(16, p, x);
    EncryptSnoc(Cbc, enc, iv, b, x);
    XorBlockTwice(x, chain);
    JoinSnoc(c, enc(w));
    assert (b + [x])[..|b|] == b;
    JoinSnoc(Whitened(enc, iv, b), w);
  }

  /** One block of AES_CBC_encrypt_buffer. */
  method EncipherNext(state: AesState, input: array<bv8>, i: nat, ivBuffer: array<bv8>, ivAt: nat, ghost iv: Block,
                      ghost p: seq<bv8>)
    requires state.Valid() && input != state.buffer && input != ivBuffer && input != state.roundKey &&
             ivAt + 16 <= ivBuffer.Length
    requires i + 16 <= input.Length && i + 16 <= state.buffer.Length
    requires Enciphered(Enciphering(state.Keys()), iv, p, input[..i], state.buffer[..i], ivBuffer[ivAt..ivAt + 16])
    modifies state`at, state.buffer, input
    ensures state.Valid() && state.buffer == old(state.buffer) && state.Keys() == old(state.Keys())
    ensures Enciphered(Enciphering(state.Keys()), iv, p + old(input[i..i + 16]), input[..i + 16],
                       state.buffer[..i + 16], state.buffer[i..i + 16])
    ensures forall x | i + 16 <= x < input.Length :: input[x] == old(input[x])
    ensures forall x | i + 16 <= x < state.buffer.Length :: state.buffer[x] == old(state.buffer[x])
  {
    hide Enciphered, Enciphering, F.Schedule, AesState.ExpandedTo, XorBlock;
    ghost var x, chain, inp, out := input[i..i + 16], ivBuffer[ivAt..ivAt + 16], input[..i], state.buffer[..i];
    EncipheredMore(Enciphering(state.Keys()), iv, p, x, inp, out, chain);
    XorWithIv(input, i, ivBuffer, ivAt);
    CopyBlock(state.buffer, input, i);
    ghost var w := input[i..i + 16];
    assert w == XorBlock(x, chain);
    assert state.buffer[i..i + 16] == w;
    CipherBlock(state, i, false);
    assert input[i..i + 16] == w;
    assert state.buffer[i..i + 16] == Enciphering(state.Keys())(w);
    assert input[..i + 16] == inp + w;
    assert state.buffer[..i + 16] == out + state.buffer[i..i + 16];
  }

  /** A state over the output buffer with its key expanded. */
  method Expanded(t: KeyType, output: array<bv8>, key: array<bv8>) returns (state: AesState)
    requires output.Length >= 16 && output != key && key.Length >= 4 * Nk(t)
    ensures state.Valid() && state.buffer == output && fresh(state) && fresh(state.roundKey)
    ensures state.Keys() == KeySchedule(t, key[..4 * Nk(t)])
  {
    hide F.Schedule, F.ToState, AesState.ExpandedTo;
    state := new AesState(t, output);
    state.KeyExpansion(key);
  }

  /** AES_CBC_encrypt_buffer on a positive whole number of blocks. */
  method CbcEncryptBuffer(t: KeyType, output: array<bv8>, input: array<bv8>, length: nat, key: array<bv8>,
                          iv: array<bv8>)
    requires output != input && output != key && iv != output && iv != input
    requires 0 < length <= input.Length && length <= output.Length && length % 16 == 0
    requires key.Length >= 4 * Nk(t) && iv.Length >= 16
    modifies output, input
    ensures Enciphered(Enciphering(KeySchedule(t, old(key[..4 * Nk(t)]))), iv[..16], old(input[..length]),
                       input[..length], output[..length],
                       output[length - 16..length])
    ensures forall x | length <= x < input.Length :: input[x] == old(input[x])
    ensures forall x | length <= x < output.Length :: output[x] == old(output[x])
  {
    hide Enciphered, Enciphering, KeySchedule, AesState.Keys, AesState.ExpandedTo;
    ghost var p := input[..];
    CopyBlock(output, input, 0);
    var state := Expanded(t, output, key);
    ghost var keys := state.Keys();
    EncipheredNothing(Enciphering(keys), iv[..16]);
    assert iv[0..16] == iv[..16] && p[..0] == input[..0] == output[..0] == [];
    var ivBuffer, ivAt := iv, 0;
    var i := 0;
    while i < length
      invariant 0 <= i <= length && i % 16 == 0
      invariant state.Valid() && state.buffer == output && state.Keys() == keys
      invariant ivBuffer == (if i == 0 then iv else output) && ivAt == (if i == 0 then 0 else i - 16)
      invariant Enciphered(Enciphering(keys), iv[..16], p[..i], input[..i], output[..i], ivBuffer[ivAt..ivAt + 16])
      invariant forall x | i <= x < input.Length :: input[x] == p[x]
      invariant forall x | length <= x < output.Length :: output[x] == old(output[x])
    {
      assert p[..i + 16] == p[..i] + input[i..i + 16];
      EncipherNext(state, input, i, ivBuffer, ivAt, iv[..16], p[..i]);
      ivBuffer, ivAt := output, i;
      i := i + 16;
    }
  }

  /** Output and chain of deciphering the bytes c. */
  ghost predicate Deciphered(keys: seq<F.State>, iv: Block, c: seq<bv8>, output: seq<bv8>, chain: Block) {
    output == Join(Decrypt(Cbc, Enciphering(keys), Deciphering(keys), iv, Cut(16, c))) &&
    chain == ChainAfter(Cbc, iv, Cut(16, c))
  }

  lemma DecipheredNothing(keys: seq<F.State>, iv: Block)
    ensures Deciphered(keys, iv, [], [], iv)
  {
  }

  /** One block x more of ciphertext. */
  lemma DecipheredMore(keys: seq<F.State>, iv: Block, c: seq<bv8>, x: Block, output: seq<bv8>, chain: Block, y: Block)
    requires |x| == 16 && Deciphered(keys, iv, c, output, chain)
    requires y == XorBlock(Deciphering(keys)(x), chain)
    ensures Deciphered(keys, iv, c + x, output + y, x)
  {
    hide Enciphering, Deciphering, XorBlock, Cut, Join;
    var enc, dec := Enciphering(keys), Deciphering(keys);
    DecryptIntoIs(false, Cbc, enc, dec, iv, Cut(16, c));
    DecryptIntoIs(false, Cbc, enc, dec, iv, Cut(16, c + x));
    hide DecryptInto, Decrypt;
    DecryptExtends(false, Cbc, enc, dec, 16, iv, c, x, output, chain, y);
  }

  /** One block of AES_CBC_decrypt_buffer. */
  method DecipherNext(state: AesState, input: array<bv8>, i: nat, ivBuffer: array<bv8>, ivAt: nat, ghost iv: Block)
    requires state.Valid() && input != state.buffer && state.buffer != ivBuffer && ivAt + 16 <= ivBuffer.Length
    requires i + 16 <= input.Length && i + 16 <= state.buffer.Length
    requires Deciphered(state.Keys(), iv, input[..i], state.buffer[..i], ivBuffer[ivAt..ivAt + 16])
    modifies state`at, state.buffer
    ensures state.Valid() && state.buffer == old(state.buffer) && state.Keys() == old(state.Keys())
    ensures Deciphered(state.Keys(), iv, input[..i + 16], state.buffer[..i + 16], input[i..i + 16])
    ensures forall x | i + 16 <= x < state.buffer.Length :: state.buffer[x] == old(state.buffer[x])
  {
    hide Enciphering, Deciphering, Deciphered, F.Schedule, AesState.ExpandedTo, XorBlock;
    ghost var x, chain, out := input[i..i + 16], ivBuffer[ivAt..ivAt + 16], state.buffer[..i];
    CopyBlock(state.buffer, input, i);
    CipherBlock(state, i, true);
    XorWithIv(state.buffer, i, ivBuffer, ivAt);
    DecipheredMore(state.Keys(), iv, input[..i], x, out, chain, state.buffer[i..i + 16]);
    assert input[..i + 16] == input[..i] + x;
    assert state.buffer[..i + 16] == out + state.buffer[i..i + 16];
  }

  /** AES_CBC_decrypt_buffer on a positive whole number of blocks. */
  method CbcDecryptBuffer(t: KeyType, output: array<bv8>, input: array<bv8>, length: nat, key: array<bv8>,
                          iv: array<bv8>)
    requires output != input && output != key && iv != output
    requires 0 < length <= input.Length && length <= output.Length && length % 16 == 0
    requires key.Length >= 4 * Nk(t) && iv.Length >= 16
    modifies output
    ensures output[..length] ==
            Join(Decrypt(Cbc, Enciphering(KeySchedule(t, key[..4 * Nk(t)])),
                         Deciphering(KeySchedule(t, key[..4 * Nk(t)])),
                                             iv[..16], Cut(16, input[..length])))
    ensures forall x | length <= x < output.Length :: output[x] == old(output[x])
  {
    hide Enciphering, Deciphering, Deciphered, KeySchedule, AesState.Keys, AesState.ExpandedTo;
    CopyBlock(output, input, 0);
    var state := Expanded(t, output, key);
    ghost var keys := state.Keys();
    DecipheredNothing(keys, iv[..16]);
    assert iv[0..16] == iv[..16] && input[..0] == output[..0] == [];
    var ivBuffer, ivAt := iv, 0;
    var i := 0;
    while i < length
      invariant 0 <= i <= length && i % 16 == 0
      invariant state.Valid() && state.buffer == output && state.Keys() == keys
      invariant ivBuffer == (if i == 0 then iv else input) && ivAt == (if i == 0 then 0 else i - 16)
      invariant Deciphered(keys, iv[..16], input[..i], output[..i], ivBuffer[ivAt..ivAt + 16])
      invariant forall x | length <= x < output.Length :: output[x] == old(output[x])
    {
      DecipherNext(state, input, i, ivBuffer, ivAt, iv[..16]);
      ivBuffer, ivAt := input, i;
      i := i + 16;
    }
    DecipheredIs(keys, iv[..16], input[..length], output[..length], ivBuffer[ivAt..ivAt + 16]);
  }

  lemma DecipheredIs(keys: seq<F.State>, iv: Block, c: seq<bv8>, output: seq<bv8>, chain: Block)
    requires Deciphered(keys, iv, c, output, chain)
    ensures output == Join(Decrypt(Cbc, Enciphering(keys), Deciphering(keys), iv, Cut(16, c)))
  {
  }
}
