// Arithmetic in GF(2^8) and the column transformations built on it.

module Gf256 {

  /** Addition, which is also subtraction. */
  function Add(x: bv8, y: bv8): bv8 {
    x ^ y
  }

  /** Multiplication by {02} modulo x^8 + x^4 + x^3 + x + 1. */
  function XTime(x: bv8): bv8 {
    (x << 1) ^ (((x >> 7) & 1) * 0x1b)
  }

  /** The product of x with the lowest bit of bit. */
  function When(bit: bv8, x: bv8): bv8 {
    if bit & 1 == 1 then x else 0
  }

  /** Multiplication by a constant below 16, one bit of the constant at a time. */
  function Multiply(x: bv8, c: bv8): bv8 {
    Add(Add(When(c, x), When(c >> 1, XTime(x))),
        Add(When(c >> 2, XTime(XTime(x))), When(c >> 3, XTime(XTime(XTime(x))))))
  }

  /** The product of any two bytes. */
  function Times(x: bv8, y: bv8): bv8 {
    var x1 := XTime(x);
    var x2 := XTime(x1);
    var x3 := XTime(x2);
    var x4 := XTime(x3);
    var x5 := XTime(x4);
    var x6 := XTime(x5);
    var x7 := XTime(x6);
    ((When(y, x) ^ When(y >> 1, x1)) ^ (When(y >> 2, x2) ^ When(y >> 3, x3))) ^
    ((When(y >> 4, x4) ^ When(y >> 5, x5)) ^ (When(y >> 6, x6) ^ When(y >> 7, x7)))
  }

  lemma MultiplyIsTimes(x: bv8, c: bv8)
    requires c < 16
    ensures Multiply(x, c) == Times(x, c)
  {
  }

  /** One column of the cipher state, or one word of the key schedule; b0 is row 0. */
  datatype Word = Word(b0: bv8, b1: bv8, b2: bv8, b3: bv8) {
    function Xor(w: Word): Word {
      Word(Add(b0, w.b0), Add(b1, w.b1), Add(b2, w.b2), Add(b3, w.b3))
    }
  }

  lemma XorTwice(v: Word, w: Word)
    ensures v.Xor(w).Xor(w) == v
  {
    hide Add;
    AddTwice(v.b0, w.b0);
    AddTwice(v.b1, w.b1);
    AddTwice(v.b2, w.b2);
    AddTwice(v.b3, w.b3);
  }

  lemma AddZero(x: bv8, y: bv8)
    ensures Add(x, y) == x <==> y == 0
  {
  }

  lemma XorZero(v: Word, w: Word)
    ensures v.Xor(w) == v <==> w == Word(0, 0, 0, 0)
  {
    hide Add;
    AddZero(v.b0, w.b0);
    AddZero(v.b1, w.b1);
    AddZero(v.b2, w.b2);
    AddZero(v.b3, w.b3);
  }

  lemma XorCommutes(v: Word, w: Word)
    ensures v.Xor(w) == w.Xor(v)
  {
    hide Add;
    AddCommutes(v.b0, w.b0);
    AddCommutes(v.b1, w.b1);
    AddCommutes(v.b2, w.b2);
    AddCommutes(v.b3, w.b3);
  }

  lemma XorInterchange(s: Word, t: Word, u: Word, v: Word)
    ensures s.Xor(t).Xor(u.Xor(v)) == s.Xor(u).Xor(t.Xor(v))
  {
    hide Add;
    Interchange(s.b0, t.b0, u.b0, v.b0);
    Interchange(s.b1, t.b1, u.b1, v.b1);
    Interchange(s.b2, t.b2, u.b2, v.b2);
    Interchange(s.b3, t.b3, u.b3, v.b3);
  }

  function Dot(w: Word, c: Word): bv8 {
    Add(Add(Multiply(w.b0, c.b0), Multiply(w.b1, c.b1)), Add(Multiply(w.b2, c.b2), Multiply(w.b3, c.b3)))
  }

  /** The product of w with the circulant matrix whose first row is c. */
  function Circulant(w: Word, c: Word): Word {
    Word(Dot(w, c),
         Dot(w, Word(c.b3, c.b0, c.b1, c.b2)),
         Dot(w, Word(c.b2, c.b3, c.b0, c.b1)),
         Dot(w, Word(c.b1, c.b2, c.b3, c.b0)))
  }

  /** Section 5.1.3 of FIPS 197. */
  function MixColumn(w: Word): Word {
    Circulant(w, Word(2, 3, 1, 1))
  }

  /** Section 5.3.3 of FIPS 197. */
  function InvMixColumn(w: Word): Word {
    Circulant(w, Word(0xe, 0xb, 0xd, 0x9))
  }

  // ----- Linearity

  lemma AddCommutes(a: bv8, b: bv8)
    ensures Add(a, b) == Add(b, a)
  {
  }

  lemma AddAssociates(a: bv8, b: bv8, c: bv8)
    ensures Add(Add(a, b), c) == Add(a, Add(b, c))
  {
  }

  lemma AddSelf(a: bv8)
    ensures Add(a, a) == 0
  {
  }

  lemma AddTwice(a: bv8, b: bv8)
    ensures Add(Add(a, b), b) == a
  {
  }

  lemma Interchange(a: bv8, b: bv8, c: bv8, d: bv8)
    ensures Add(Add(a, b), Add(c, d)) == Add(Add(a, c), Add(b, d))
  {
    hide Add;
    AddAssociates(a, b, Add(c, d));
    AddAssociates(b, c, d);
    AddCommutes(b, c);
    AddAssociates(c, b, d);
    AddAssociates(a, c, Add(b, d));
  }

  lemma WhenLinear(bit: bv8, x: bv8, y: bv8)
    ensures When(bit, Add(x, y)) == Add(When(bit, x), When(bit, y))
  {
  }

  lemma WhenBit(y: bv8, z: bv8, x: bv8)
    ensures When(Add(y, z), x) == Add(When(y, x), When(z, x))
  {
  }

  lemma BitsAdd(y: bv8, z: bv8)
    ensures Add(y, z) >> 1 == Add(y >> 1, z >> 1) && Add(y, z) >> 2 == Add(y >> 2, z >> 2)
    ensures Add(y, z) >> 3 == Add(y >> 3, z >> 3) && Add(y, z) >> 4 == Add(y >> 4, z >> 4)
    ensures Add(y, z) >> 5 == Add(y >> 5, z >> 5) && Add(y, z) >> 6 == Add(y >> 6, z >> 6)
    ensures Add(y, z) >> 7 == Add(y >> 7, z >> 7)
  {
  }

  lemma FourAdd(a: bv8, b: bv8, c: bv8, d: bv8, a': bv8, b': bv8, c': bv8, d': bv8)
    ensures Add(Add(Add(a, a'), Add(b, b')), Add(Add(c, c'), Add(d, d'))) ==
            Add(Add(Add(a, b), Add(c, d)), Add(Add(a', b'), Add(c', d')))
  {
    hide Add;
    Interchange(a, a', b, b');
    Interchange(c, c', d, d');
    Interchange(Add(a, b), Add(a', b'), Add(c, d), Add(c', d'));
  }

  lemma TimesIsSum(x: bv8, y: bv8)
    ensures var x1 := XTime(x); var x2 := XTime(x1); var x3 := XTime(x2); var x4 := XTime(x3);
            var x5 := XTime(x4); var x6 := XTime(x5); var x7 := XTime(x6);
            Times(x, y) ==
            Add(Add(Add(When(y, x), When(y >> 1, x1)), Add(When(y >> 2, x2), When(y >> 3, x3))),
                Add(Add(When(y >> 4, x4), When(y >> 5, x5)), Add(When(y >> 6, x6), When(y >> 7, x7))))
  {
    hide When, XTime;
  }

  /** Multiplication distributes over addition. */
  lemma TimesLinear(x: bv8, y: bv8, z: bv8)
    ensures Times(x, Add(y, z)) == Add(Times(x, y), Times(x, z))
  {
    BitsAdd(y, z);
    TimesIsSum(x, y);
    TimesIsSum(x, z);
    TimesIsSum(x, Add(y, z));
    hide Add, When, XTime, Times;
    var x1 := XTime(x);
    var x2 := XTime(x1);
    var x3 := XTime(x2);
    var x4 := XTime(x3);
    var x5 := XTime(x4);
    var x6 := XTime(x5);
    var x7 := XTime(x6);
    WhenBit(y, z, x);
    WhenBit(y >> 1, z >> 1, x1);
    WhenBit(y >> 2, z >> 2, x2);
    WhenBit(y >> 3, z >> 3, x3);
    WhenBit(y >> 4, z >> 4, x4);
    WhenBit(y >> 5, z >> 5, x5);
    WhenBit(y >> 6, z >> 6, x6);
    WhenBit(y >> 7, z >> 7, x7);
    FourAdd(When(y, x), When(y >> 1, x1), When(y >> 2, x2), When(y >> 3, x3),
            When(z, x), When(z >> 1, x1), When(z >> 2, x2), When(z >> 3, x3));
    FourAdd(When(y >> 4, x4), When(y >> 5, x5), When(y >> 6, x6), When(y >> 7, x7),
            When(z >> 4, x4), When(z >> 5, x5), When(z >> 6, x6), When(z >> 7, x7));
    Interchange(Add(Add(When(y, x), When(y >> 1, x1)), Add(When(y >> 2, x2), When(y >> 3, x3))),
                Add(Add(When(z, x), When(z >> 1, x1)), Add(When(z >> 2, x2), When(z >> 3, x3))),
                Add(Add(When(y >> 4, x4), When(y >> 5, x5)), Add(When(y >> 6, x6), When(y >> 7, x7))),
                Add(Add(When(z >> 4, x4), When(z >> 5, x5)), Add(When(z >> 6, x6), When(z >> 7, x7))));
  }

  lemma NoZeroBelow(x: bv8, y: bv8)
    requires y < 0x20 && Times(x, y) == 0
    ensures x == 0 || y == 0
  {
  }

  lemma NoZeroFrom32(x: bv8, y: bv8)
    requires 0x20 <= y < 0x40
    ensures Times(x, y) == 0 ==> x == 0
  {
  }

  lemma NoZeroFrom64(x: bv8, y: bv8)
    requires 0x40 <= y < 0x80
    ensures Times(x, y) == 0 ==> x == 0
  {
  }

  lemma NoZeroFrom128(x: bv8, y: bv8)
    requires 0x80 <= y < 0xc0
    ensures Times(x, y) == 0 ==> x == 0
  {
  }

  lemma NoZeroFrom192(x: bv8, y: bv8)
    requires 0xc0 <= y
    ensures Times(x, y) == 0 ==> x == 0
  {
  }

  lemma NoZeroDivisors(x: bv8, y: bv8)
    requires Times(x, y) == 0
    ensures x == 0 || y == 0
  {
    hide Times;
    if y < 0x20 {
      NoZeroBelow(x, y);
    } else if y < 0x40 {
      NoZeroFrom32(x, y);
    } else if y < 0x80 {
      NoZeroFrom64(x, y);
    } else if y < 0xc0 {
      NoZeroFrom128(x, y);
    } else {
      NoZeroFrom192(x, y);
    }
  }

  /** No byte but 0 gives the same product with two factors. */
  lemma TimesInjective(x: bv8, y: bv8, z: bv8)
    requires x != 0 && Times(x, y) == Times(x, z)
    ensures y == z
  {
    hide Times, Add;
    TimesLinear(x, y, z);
    AddSelf(Times(x, y));
    NoZeroDivisors(x, Add(y, z));
    AddTwice(y, z);
    AddCommutes(0, z);
    AddZero(z, 0);
  }

  lemma XTimeLinear(x: bv8, y: bv8)
    ensures XTime(Add(x, y)) == Add(XTime(x), XTime(y))
  {
  }

  /** A sum of four sums, regrouped. */
  lemma Regroup(a: bv8, b: bv8, c: bv8, d: bv8, a': bv8, b': bv8, c': bv8, d': bv8)
    ensures Add(Add(Add(a, a'), Add(b, b')), Add(Add(c, c'), Add(d, d')))
         == Add(Add(Add(a, b), Add(c, d)), Add(Add(a', b'), Add(c', d')))
  {
    hide Add;
    Interchange(a, a', b, b');
    Interchange(c, c', d, d');
    Interchange(Add(a, b), Add(a', b'), Add(c, d), Add(c', d'));
  }

  lemma MultiplyLinear(x: bv8, y: bv8, c: bv8)
    ensures Multiply(Add(x, y), c) == Add(Multiply(x, c), Multiply(y, c))
  {
    hide Add, XTime, When;
    var x1, y1 := XTime(x), XTime(y);
    var x2, y2 := XTime(x1), XTime(y1);
    XTimeLinear(x, y);
    XTimeLinear(x1, y1);
    XTimeLinear(x2, y2);
    WhenLinear(c, x, y);
    WhenLinear(c >> 1, x1, y1);
    WhenLinear(c >> 2, x2, y2);
    WhenLinear(c >> 3, XTime(x2), XTime(y2));
    Regroup(When(c, x), When(c >> 1, x1), When(c >> 2, x2), When(c >> 3, XTime(x2)),
            When(c, y), When(c >> 1, y1), When(c >> 2, y2), When(c >> 3, XTime(y2)));
  }

  lemma DotLinear(v: Word, w: Word, c: Word)
    ensures Dot(v.Xor(w), c) == Add(Dot(v, c), Dot(w, c))
  {
    hide Add, Multiply;
    MultiplyLinear(v.b0, w.b0, c.b0);
    MultiplyLinear(v.b1, w.b1, c.b1);
    MultiplyLinear(v.b2, w.b2, c.b2);
    MultiplyLinear(v.b3, w.b3, c.b3);
    Regroup(Multiply(v.b0, c.b0), Multiply(v.b1, c.b1), Multiply(v.b2, c.b2), Multiply(v.b3, c.b3),
            Multiply(w.b0, c.b0), Multiply(w.b1, c.b1), Multiply(w.b2, c.b2), Multiply(w.b3, c.b3));
  }

  lemma CirculantLinear(v: Word, w: Word, c: Word)
    ensures Circulant(v.Xor(w), c) == Circulant(v, c).Xor(Circulant(w, c))
  {
    hide Add, Dot;
    DotLinear(v, w, c);
    DotLinear(v, w, Word(c.b3, c.b0, c.b1, c.b2));
    DotLinear(v, w, Word(c.b2, c.b3, c.b0, c.b1));
    DotLinear(v, w, Word(c.b1, c.b2, c.b3, c.b0));
  }

  // ----- The two column transformations undo each other

  // The first column of the product of the two matrices is that of the unit matrix.

  lemma InverseRow0(x: bv8)
    ensures Dot(Word(XTime(x), x, x, Add(x, XTime(x))), Word(0xe, 0xb, 0xd, 0x9)) == x
  {
  }

  lemma InverseRow1(x: bv8)
    ensures Dot(Word(XTime(x), x, x, Add(x, XTime(x))), Word(0x9, 0xe, 0xb, 0xd)) == 0
  {
  }

  lemma InverseRow2(x: bv8)
    ensures Dot(Word(XTime(x), x, x, Add(x, XTime(x))), Word(0xd, 0x9, 0xe, 0xb)) == 0
  {
  }

  lemma InverseRow3(x: bv8)
    ensures Dot(Word(XTime(x), x, x, Add(x, XTime(x))), Word(0xb, 0xd, 0x9, 0xe)) == 0
  {
  }

  /** A column of the inverse matrix times x. */
  function InverseUnit(x: bv8): Word {
    Word(Multiply(x, 0xe), Multiply(x, 0x9), Multiply(x, 0xd), Multiply(x, 0xb))
  }

  lemma ProductRow0(x: bv8)
    ensures Dot(InverseUnit(x), Word(2, 3, 1, 1)) == x
  {
  }

  lemma ProductRow1(x: bv8)
    ensures Dot(InverseUnit(x), Word(1, 2, 3, 1)) == 0
  {
  }

  lemma ProductRow2(x: bv8)
    ensures Dot(InverseUnit(x), Word(1, 1, 2, 3)) == 0
  {
  }

  lemma ProductRow3(x: bv8)
    ensures Dot(InverseUnit(x), Word(3, 1, 1, 2)) == 0
  {
  }

  lemma InvMixUnit(x: bv8)
    ensures InvMixColumn(Word(x, 0, 0, 0)) == InverseUnit(x)
  {
  }

  lemma MixUnit(x: bv8)
    ensures MixColumn(Word(x, 0, 0, 0)) == Word(XTime(x), x, x, Add(x, XTime(x)))
  {
  }

  lemma UnitInverse(x: bv8)
    ensures InvMixColumn(MixColumn(Word(x, 0, 0, 0))) == Word(x, 0, 0, 0)
  {
    hide Dot, Multiply, XTime;
    MixUnit(x);
    InverseRow0(x);
    InverseRow1(x);
    InverseRow2(x);
    InverseRow3(x);
  }

  lemma UnitProduct(x: bv8)
    ensures MixColumn(InvMixColumn(Word(x, 0, 0, 0))) == Word(x, 0, 0, 0)
  {
    hide Dot, Multiply;
    InvMixUnit(x);
    ProductRow0(x);
    ProductRow1(x);
    ProductRow2(x);
    ProductRow3(x);
  }

  lemma SmallMultiples(x: bv8)
    ensures Multiply(x, 1) == x && Multiply(x, 2) == XTime(x) && Multiply(x, 3) == Add(x, XTime(x))
  {
  }

  function Rotate(w: Word): Word {
    Word(w.b3, w.b0, w.b1, w.b2)
  }

  lemma DotRotates(w: Word, c: Word)
    ensures Dot(Rotate(w), Rotate(c)) == Dot(w, c)
  {
    hide Add, Multiply;
    var p, q, r, s := Multiply(w.b0, c.b0), Multiply(w.b1, c.b1), Multiply(w.b2, c.b2), Multiply(w.b3, c.b3);
    AddCommutes(s, p);
    Interchange(p, s, q, r);
    AddCommutes(s, r);
  }

  lemma CirculantRotates(w: Word, c: Word)
    ensures Circulant(Rotate(w), c) == Rotate(Circulant(w, c))
  {
    hide Dot;
    DotRotates(w, c);
    DotRotates(w, Rotate(c));
    DotRotates(w, Rotate(Rotate(c)));
    DotRotates(w, Rotate(Rotate(Rotate(c))));
  }

  /** The product of two circulant matrices, as a map. */
  function Product(w: Word, c: Word, d: Word): Word {
    Circulant(Circulant(w, c), d)
  }

  /** It is linear and commutes with rotation. */
  lemma ProductLinear(v: Word, w: Word, c: Word, d: Word)
    ensures Product(v.Xor(w), c, d) == Product(v, c, d).Xor(Product(w, c, d))
    ensures Product(Rotate(v), c, d) == Rotate(Product(v, c, d))
  {
    hide Circulant, Rotate;
    CirculantLinear(v, w, c);
    CirculantLinear(Circulant(v, c), Circulant(w, c), d);
    CirculantRotates(v, c);
    CirculantRotates(Circulant(v, c), d);
  }

  /** So it keeps every column if it keeps those with one entry, in the first row. */
  lemma KeepsColumns(w: Word, c: Word, d: Word)
    requires forall x :: Product(Word(x, 0, 0, 0), c, d) == Word(x, 0, 0, 0)
    ensures Product(w, c, d) == w
  {
    hide Product;
    var w0, u1, u2, u3 := Word(w.b0, 0, 0, 0), Word(w.b1, 0, 0, 0), Word(w.b2, 0, 0, 0), Word(w.b3, 0, 0, 0);
    var w1, w2, w3 := Rotate(u1), Rotate(Rotate(u2)), Rotate(Rotate(Rotate(u3)));
    assert w == w0.Xor(w1).Xor(w2.Xor(w3));
    ProductLinear(u1, w0, c, d);
    ProductLinear(u2, w0, c, d);
    ProductLinear(Rotate(u2), w0, c, d);
    ProductLinear(u3, w0, c, d);
    ProductLinear(Rotate(u3), w0, c, d);
    ProductLinear(Rotate(Rotate(u3)), w0, c, d);
    ProductLinear(w0, w1, c, d);
    ProductLinear(w2, w3, c, d);
    ProductLinear(w0.Xor(w1), w2.Xor(w3), c, d);
  }

  lemma MixInverse(w: Word)
    ensures InvMixColumn(MixColumn(w)) == w
    ensures MixColumn(InvMixColumn(w)) == w
  {
    hide Circulant;
    forall x
      ensures Product(Word(x, 0, 0, 0), Word(2, 3, 1, 1), Word(0xe, 0xb, 0xd, 0x9)) == Word(x, 0, 0, 0)
    {
      UnitInverse(x);
    }
    forall x
      ensures Product(Word(x, 0, 0, 0), Word(0xe, 0xb, 0xd, 0x9), Word(2, 3, 1, 1)) == Word(x, 0, 0, 0)
    {
      UnitProduct(x);
    }
    KeepsColumns(w, Word(2, 3, 1, 1), Word(0xe, 0xb, 0xd, 0x9));
    KeepsColumns(w, Word(0xe, 0xb, 0xd, 0x9), Word(2, 3, 1, 1));
  }
}
