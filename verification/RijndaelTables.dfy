// The 32-bit words and lookup tables of src/common/rijndael.cpp, and what rounds
// built on those tables compute.

module RijndaelTables {
  import opened Gf256
  import opened SBox
  import opened Fips197

  // ----- Columns as 32-bit words, row 0 in the high byte

  function Byte0(x: bv32): bv8 { ((x >> 24) & 0xff) as bv8 }
  function Byte1(x: bv32): bv8 { ((x >> 16) & 0xff) as bv8 }
  function Byte2(x: bv32): bv8 { ((x >> 8) & 0xff) as bv8 }
  function Byte3(x: bv32): bv8 { (x & 0xff) as bv8 }

  function Unpack(x: bv32): Word {
    Word(Byte0(x), Byte1(x), Byte2(x), Byte3(x))
  }

  function Pack(w: Word): bv32 {
    (w.b0 as bv32 << 24) | (w.b1 as bv32 << 16) | (w.b2 as bv32 << 8) | w.b3 as bv32
  }

  lemma UnpackPack(w: Word)
    ensures Unpack(Pack(w)) == w
  {
  }

  /** The operator ^ of the source, on words. */
  function Plus(x: bv32, y: bv32): bv32 {
    x ^ y
  }

  lemma UnpackPlus(x: bv32, y: bv32)
    ensures Unpack(Plus(x, y)) == Unpack(x).Xor(Unpack(y))
  {
  }

  // ----- The tables

  /** The word of the products of a with the four bytes of b. */
  function Mul4(a: bv8, b: Word): bv32 {
    Pack(Word(Multiply(a, b.b0), Multiply(a, b.b1), Multiply(a, b.b2), Multiply(a, b.b3)))
  }

  // Three tables, T1, T3 and T6, and the key table U2 hold one entry each that is
  // not the product it stands for.

  function T1(x: bv8): bv32 { if x == 186 then 0xf3f36d67 else Mul4(Sub(x), Word(2, 1, 1, 3)) }
  function T2(x: bv8): bv32 { Mul4(Sub(x), Word(3, 2, 1, 1)) }
  function T3(x: bv8): bv32 { if x == 234 then 0x8782d347 else Mul4(Sub(x), Word(1, 3, 2, 1)) }
  function T4(x: bv8): bv32 { Mul4(Sub(x), Word(1, 1, 3, 2)) }

  function T5(x: bv8): bv32 { Mul4(InvSub(x), Word(0xe, 0x9, 0xd, 0xb)) }
  function T6(x: bv8): bv32 { if x == 50 then 0x87859c2c else Mul4(InvSub(x), Word(0xb, 0xe, 0x9, 0xd)) }
  function T7(x: bv8): bv32 { Mul4(InvSub(x), Word(0xd, 0xb, 0xe, 0x9)) }
  function T8(x: bv8): bv32 { Mul4(InvSub(x), Word(0x9, 0xd, 0xb, 0xe)) }

  function U1(x: bv8): bv32 { Mul4(x, Word(0xe, 0x9, 0xd, 0xb)) }
  function U2(x: bv8): bv32 { if x == 161 then 0x87859c2c else Mul4(x, Word(0xb, 0xe, 0x9, 0xd)) }
  function U3(x: bv8): bv32 { Mul4(x, Word(0xd, 0xb, 0xe, 0x9)) }
  function U4(x: bv8): bv32 { Mul4(x, Word(0x9, 0xd, 0xb, 0xe)) }

  // ----- What one lookup of a column gives

  /** The exclusive or of four lookups. */
  function Plus4(a: bv32, b: bv32, c: bv32, d: bv32): bv32 {
    Plus(Plus(a, b), Plus(c, d))
  }

  lemma UnpackPlus4(a: bv32, b: bv32, c: bv32, d: bv32)
    ensures Unpack(Plus4(a, b, c, d)) == Unpack(a).Xor(Unpack(b)).Xor(Unpack(c).Xor(Unpack(d)))
  {
    hide Plus, Unpack, Add;
    UnpackPlus(a, b);
    UnpackPlus(c, d);
    UnpackPlus(Plus(a, b), Plus(c, d));
  }

  lemma UnpackMul4(a: bv8, b: Word)
    ensures Unpack(Mul4(a, b)) == Word(Multiply(a, b.b0), Multiply(a, b.b1), Multiply(a, b.b2), Multiply(a, b.b3))
  {
    hide Unpack, Pack, Multiply;
    UnpackPack(Word(Multiply(a, b.b0), Multiply(a, b.b1), Multiply(a, b.b2), Multiply(a, b.b3)));
  }

  /** Four lookups in sound tables multiply a column by a circulant matrix. */
  lemma SumOfProducts(w: Word, c: Word)
    ensures Unpack(Plus4(Mul4(w.b0, Word(c.b0, c.b3, c.b2, c.b1)), Mul4(w.b1, Word(c.b1, c.b0, c.b3, c.b2)),
                        Mul4(w.b2, Word(c.b2, c.b1, c.b0, c.b3)), Mul4(w.b3, Word(c.b3, c.b2, c.b1, c.b0))))
         == Circulant(w, c)
  {
    hide Add, Multiply, Unpack, Mul4, Plus4;
    var m0, m1 := Word(c.b0, c.b3, c.b2, c.b1), Word(c.b1, c.b0, c.b3, c.b2);
    var m2, m3 := Word(c.b2, c.b1, c.b0, c.b3), Word(c.b3, c.b2, c.b1, c.b0);
    UnpackMul4(w.b0, m0);
    UnpackMul4(w.b1, m1);
    UnpackMul4(w.b2, m2);
    UnpackMul4(w.b3, m3);
    UnpackPlus4(Mul4(w.b0, m0), Mul4(w.b1, m1), Mul4(w.b2, m2), Mul4(w.b3, m3));
  }

  // ----- What the code looks up for a column, and what FIPS 197 asks for

  datatype Direction = Encrypting | Decrypting

  function LookUp(d: Direction, w: Word): bv32 {
    match d
    case Encrypting => Plus4(T1(w.b0), T2(w.b1), T3(w.b2), T4(w.b3))
    case Decrypting => Plus4(T5(w.b0), T6(w.b1), T7(w.b2), T8(w.b3))
  }

  function LookUpKey(w: Word): bv32 {
    Plus4(U1(w.b0), U2(w.b1), U3(w.b2), U4(w.b3))
  }

  function Exact(d: Direction, w: Word): Word {
    match d
    case Encrypting => MixColumn(SubWord(w))
    case Decrypting => InvMixColumn(InvSubWord(w))
  }

  /** The lookup of w reaches an entry that is not what it should be. */
  predicate Hit(d: Direction, w: Word) {
    match d
    case Encrypting => w.b0 == 186 || w.b2 == 234
    case Decrypting => w.b1 == 50
  }

  predicate KeyHit(w: Word) {
    w.b1 == 161
  }

  const E1 := Word(0x00, 0x07, 0x99, 0x60)
  const E3 := Word(0x00, 0x10, 0xc6, 0xc0)
  const E6 := Word(0x00, 0x11, 0x42, 0x40)
  const NO_ERROR := Word(0, 0, 0, 0)

  /** How far the corrupt entries are from the products they stand for. */
  lemma CorruptEntries()
    ensures Unpack(T1(186)) == Unpack(Mul4(Sub(186), Word(2, 1, 1, 3))).Xor(E1)
    ensures Unpack(T3(234)) == Unpack(Mul4(Sub(234), Word(1, 3, 2, 1))).Xor(E3)
    ensures Unpack(T6(50)) == Unpack(Mul4(InvSub(50), Word(0xb, 0xe, 0x9, 0xd))).Xor(E6)
    ensures Unpack(U2(161)) == Unpack(Mul4(161, Word(0xb, 0xe, 0x9, 0xd))).Xor(E6)
  {
  }

  /** What the corrupt entries add to the column looked up for w. */
  function Error(d: Direction, w: Word): Word {
    match d
    case Encrypting => (if w.b0 == 186 then E1 else NO_ERROR).Xor(if w.b2 == 234 then E3 else NO_ERROR)
    case Decrypting => if w.b1 == 50 then E6 else NO_ERROR
  }

  lemma ErrorIsHit(d: Direction, w: Word)
    ensures Error(d, w) != NO_ERROR <==> Hit(d, w)
  {
  }

  /** Four lookups, each off by its own error, are together off by the sum of the errors. */
  lemma ErrorsAdd(t0: bv32, t1: bv32, t2: bv32, t3: bv32, m0: bv32, m1: bv32, m2: bv32, m3: bv32,
                  e0: Word, e1: Word, e2: Word, e3: Word)
    requires Unpack(t0) == Unpack(m0).Xor(e0) && Unpack(t1) == Unpack(m1).Xor(e1)
    requires Unpack(t2) == Unpack(m2).Xor(e2) && Unpack(t3) == Unpack(m3).Xor(e3)
    ensures Unpack(Plus4(t0, t1, t2, t3)) == Unpack(Plus4(m0, m1, m2, m3)).Xor(e0.Xor(e1).Xor(e2.Xor(e3)))
  {
    hide Plus4, Unpack, Word.Xor;
    UnpackPlus4(t0, t1, t2, t3);
    UnpackPlus4(m0, m1, m2, m3);
    XorInterchange(Unpack(m0), e0, Unpack(m1), e1);
    XorInterchange(Unpack(m2), e2, Unpack(m3), e3);
    XorInterchange(Unpack(m0).Xor(Unpack(m1)), e0.Xor(e1), Unpack(m2).Xor(Unpack(m3)), e2.Xor(e3));
  }

  lemma LookUpError(d: Direction, w: Word)
    ensures Unpack(LookUp(d, w)) == Exact(d, w).Xor(Error(d, w))
  {
    hide Plus4, Unpack, Mul4, Sub, InvSub, Word.Xor, Circulant;
    CorruptEntries();
    forall v: Word ensures v.Xor(NO_ERROR) == v { XorZero(v, NO_ERROR); }
    match d
    case Encrypting =>
      var s := SubWord(w);
      SumOfProducts(s, Word(2, 3, 1, 1));
      ErrorsAdd(T1(w.b0), T2(w.b1), T3(w.b2), T4(w.b3),
                Mul4(s.b0, Word(2, 1, 1, 3)), Mul4(s.b1, Word(3, 2, 1, 1)),
                Mul4(s.b2, Word(1, 3, 2, 1)), Mul4(s.b3, Word(1, 1, 3, 2)),
                if w.b0 == 186 then E1 else NO_ERROR, NO_ERROR, if w.b2 == 234 then E3 else NO_ERROR, NO_ERROR);
    case Decrypting =>
      var s := InvSubWord(w);
      SumOfProducts(s, Word(0xe, 0xb, 0xd, 0x9));
      ErrorsAdd(T5(w.b0), T6(w.b1), T7(w.b2), T8(w.b3),
                Mul4(s.b0, Word(0xe, 0x9, 0xd, 0xb)), Mul4(s.b1, Word(0xb, 0xe, 0x9, 0xd)),
                Mul4(s.b2, Word(0xd, 0xb, 0xe, 0x9)), Mul4(s.b3, Word(0x9, 0xd, 0xb, 0xe)),
                NO_ERROR, if w.b1 == 50 then E6 else NO_ERROR, NO_ERROR, NO_ERROR);
      XorCommutes(NO_ERROR, Error(d, w));
  }

  /** A lookup gives the column FIPS 197 asks for exactly when it reaches no corrupt entry. */
  lemma LookUpExact(d: Direction, w: Word)
    ensures Unpack(LookUp(d, w)) == Exact(d, w) <==> !Hit(d, w)
  {
    hide LookUp, Exact, Error, Hit, Unpack, Word.Xor;
    LookUpError(d, w);
    ErrorIsHit(d, w);
    XorZero(Exact(d, w), Error(d, w));
  }

  /** What the corrupt entry adds to a derived key column. */
  function KeyError(w: Word): Word {
    if KeyHit(w) then E6 else NO_ERROR
  }

  lemma LookUpKeyError(w: Word)
    ensures Unpack(LookUpKey(w)) == InvMixColumn(w).Xor(KeyError(w))
  {
    hide Plus4, Unpack, Mul4, Word.Xor, Circulant;
    CorruptEntries();
    forall v: Word ensures v.Xor(NO_ERROR) == v { XorZero(v, NO_ERROR); }
    var e := KeyError(w);
    SumOfProducts(w, Word(0xe, 0xb, 0xd, 0x9));
    ErrorsAdd(U1(w.b0), U2(w.b1), U3(w.b2), U4(w.b3),
              Mul4(w.b0, Word(0xe, 0x9, 0xd, 0xb)), Mul4(w.b1, Word(0xb, 0xe, 0x9, 0xd)),
              Mul4(w.b2, Word(0xd, 0xb, 0xe, 0x9)), Mul4(w.b3, Word(0x9, 0xd, 0xb, 0xe)),
              NO_ERROR, e, NO_ERROR, NO_ERROR);
    XorCommutes(NO_ERROR, e);
  }

  lemma LookUpKeyExact(w: Word)
    ensures Unpack(LookUpKey(w)) == InvMixColumn(w) <==> !KeyHit(w)
  {
    hide LookUpKey, Unpack, Word.Xor, Circulant;
    LookUpKeyError(w);
    XorZero(InvMixColumn(w), KeyError(w));
  }

  // ----- A deciphering column and its derived key

  /** Whether the errors of a deciphering lookup and of its key column do not cancel: one of the two is there. */
  predicate NetHit(w: Word, k: Word) {
    Hit(Decrypting, w) != KeyHit(k)
  }

  function NetError(w: Word, k: Word): Word {
    if NetHit(w, k) then E6 else NO_ERROR
  }

  lemma SameErrors(w: Word, k: Word)
    ensures Error(Decrypting, w).Xor(KeyError(k)) == NetError(w, k)
  {
    hide Word.Xor;
    XorZero(E6, NO_ERROR);
    XorCommutes(E6, NO_ERROR);
    XorZero(NO_ERROR, NO_ERROR);
    XorTwice(NO_ERROR, E6);
  }

  lemma NetLookUp(w: Word, k: Word)
    ensures Unpack(LookUp(Decrypting, w)).Xor(Unpack(LookUpKey(k))) ==
            Exact(Decrypting, w).Xor(InvMixColumn(k)).Xor(NetError(w, k))
  {
    var e, f := Error(Decrypting, w), KeyError(k);
    hide LookUp, LookUpKey, Unpack, Exact, InvMixColumn, Error, KeyError, NetError, Word.Xor;
    SameErrors(w, k);
    LookUpError(Decrypting, w);
    LookUpKeyError(k);
    XorInterchange(Exact(Decrypting, w), e, InvMixColumn(k), f);
  }

  /** The two corrupt entries of deciphering hold the same error: together they give the right column. */
  lemma NetLookUpExact(w: Word, k: Word)
    ensures Unpack(LookUp(Decrypting, w)).Xor(Unpack(LookUpKey(k))) == Exact(Decrypting, w).Xor(InvMixColumn(k)) <==>
            (Hit(Decrypting, w) <==> KeyHit(k))
  {
    hide LookUp, LookUpKey, Unpack, Exact, InvMixColumn, Word.Xor;
    NetLookUp(w, k);
    XorZero(Exact(Decrypting, w).Xor(InvMixColumn(k)), NetError(w, k));
  }

  lemma MixedErrors()
    ensures InvMixColumn(NO_ERROR) == NO_ERROR.Xor(NO_ERROR) == NO_ERROR
    ensures InvMixColumn(E1.Xor(NO_ERROR)).b0 == 0x13
    ensures InvMixColumn(NO_ERROR.Xor(E3)).b0 == 0xb3
    ensures InvMixColumn(E1.Xor(E3)).b0 == 0xa0
  {
  }

  /** The errors of enciphering change the first byte of a column once its mixing is undone. */
  lemma MixedErrorIsHit(w: Word)
    ensures InvMixColumn(Error(Encrypting, w)) == NO_ERROR || InvMixColumn(Error(Encrypting, w)).b0 != 0
    ensures InvMixColumn(Error(Encrypting, w)) == NO_ERROR <==> !Hit(Encrypting, w)
  {
    hide InvMixColumn, Word.Xor;
    MixedErrors();
  }

  /** No error of enciphering is one of deciphering, seen through the inverse column mixing. */
  lemma ErrorsDiffer(w: Word, v: Word, k: Word)
    ensures InvMixColumn(Error(Encrypting, w)) == NetError(v, k) <==> !Hit(Encrypting, w) && !NetHit(v, k)
  {
    hide InvMixColumn, Error, Hit, NetHit;
    MixedErrorIsHit(w);
  }
}
