// The MD5 of "abc" (section A.5 of RFC 1321), operation by operation: it depends on every
// constant, shift and word that the compression of src/common/vscpmd5.c takes.

module Md5Abc {
  import opened BlockStream
  import opened Md5

  const ABC: seq<bv8> := [0x61, 0x62, 0x63]

  /** The message padded: one block. */
  function Abc(): (m: Block) {
    ABC + [0x80] + Zeros(52) + [0x18, 0, 0, 0, 0, 0, 0, 0]
  }

  /** The words of the block. */
  function WordOf(k: nat): word {
    if k == 0 then 0x80636261 else if k == 14 then 0x18 else 0
  }

  /** The registers before each operation, and after the last. */
  function VarsAfter(i: nat): Vars {
    match i
    case 0 => Vars(0x67452301, 0xefcdab89, 0x98badcfe, 0x10325476)
    case 1 => Vars(0x10325476, 0xd6d117b4, 0xefcdab89, 0x98badcfe)
    case 2 => Vars(0x98badcfe, 0x344a8432, 0xd6d117b4, 0xefcdab89)
    case 3 => Vars(0xefcdab89, 0x2f6fbd72, 0x344a8432, 0xd6d117b4)
    case 4 => Vars(0xd6d117b4, 0x7ad956f2, 0x2f6fbd72, 0x344a8432)
    case 5 => Vars(0x344a8432, 0xc73741ef, 0x7ad956f2, 0x2f6fbd72)
    case 6 => Vars(0x2f6fbd72, 0x8bac3051, 0xc73741ef, 0x7ad956f2)
    case 7 => Vars(0x7ad956f2, 0x207dc67b, 0x8bac3051, 0xc73741ef)
    case 8 => Vars(0xc73741ef, 0x928d99f6, 0x207dc67b, 0x8bac3051)
    case 9 => Vars(0x8bac3051, 0x854b3712, 0x928d99f6, 0x207dc67b)
    case 10 => Vars(0x207dc67b, 0x74e2f284, 0x854b3712, 0x928d99f6)
    case 11 => Vars(0x928d99f6, 0x3020401c, 0x74e2f284, 0x854b3712)
    case 12 => Vars(0x854b3712, 0x5ed49596, 0x3020401c, 0x74e2f284)
    case 13 => Vars(0x74e2f284, 0xdda9b9a6, 0x5ed49596, 0x3020401c)
    case 14 => Vars(0x3020401c, 0xa1051895, 0xdda9b9a6, 0x5ed49596)
    case 15 => Vars(0x5ed49596, 0xe396856b, 0xa1051895, 0xdda9b9a6)
    case 16 => Vars(0xdda9b9a6, 0x72aff2e0, 0xe396856b, 0xa1051895)
    case 17 => Vars(0xa1051895, 0x3e9e9126, 0x72aff2e0, 0xe396856b)
    case 18 => Vars(0xe396856b, 0x4a1d804e, 0x3e9e9126, 0x72aff2e0)
    case 19 => Vars(0x72aff2e0, 0xe25e1652, 0x4a1d804e, 0x3e9e9126)
    case 20 => Vars(0x3e9e9126, 0xb5b204e4, 0xe25e1652, 0x4a1d804e)
    case 21 => Vars(0x4a1d804e, 0x59a8ffda, 0xb5b204e4, 0xe25e1652)
    case 22 => Vars(0xe25e1652, 0x6d002f1e, 0x59a8ffda, 0xb5b204e4)
    case 23 => Vars(0xb5b204e4, 0xabfc7920, 0x6d002f1e, 0x59a8ffda)
    case 24 => Vars(0x59a8ffda, 0x47092c07, 0xabfc7920, 0x6d002f1e)
    case 25 => Vars(0x6d002f1e, 0xb7f268cf, 0x47092c07, 0xabfc7920)
    case 26 => Vars(0xabfc7920, 0x09388eff, 0xb7f268cf, 0x47092c07)
    case 27 => Vars(0x47092c07, 0xfe1623b1, 0x09388eff, 0xb7f268cf)
    case 28 => Vars(0xb7f268cf, 0x786acb8f, 0xfe1623b1, 0x09388eff)
    case 29 => Vars(0x09388eff, 0x790a77fb, 0x786acb8f, 0xfe1623b1)
    case 30 => Vars(0xfe1623b1, 0x9f47e4f8, 0x790a77fb, 0x786acb8f)
    case 31 => Vars(0x786acb8f, 0xa62884aa, 0x9f47e4f8, 0x790a77fb)
    case 32 => Vars(0x790a77fb, 0x726342d3, 0xa62884aa, 0x9f47e4f8)
    case 33 => Vars(0x9f47e4f8, 0xb3707ebf, 0x726342d3, 0xa62884aa)
    case 34 => Vars(0xa62884aa, 0x60127b2e, 0xb3707ebf, 0x726342d3)
    case 35 => Vars(0x726342d3, 0x8d212ff5, 0x60127b2e, 0xb3707ebf)
    case 36 => Vars(0xb3707ebf, 0x3b0875c7, 0x8d212ff5, 0x60127b2e)
    case 37 => Vars(0x60127b2e, 0x21b117b9, 0x3b0875c7, 0x8d212ff5)
    case 38 => Vars(0x8d212ff5, 0x6e7429d5, 0x21b117b9, 0x3b0875c7)
    case 39 => Vars(0x3b0875c7, 0x3575227e, 0x6e7429d5, 0x21b117b9)
    case 40 => Vars(0x21b117b9, 0x5a2f5ea5, 0x3575227e, 0x6e7429d5)
    case 41 => Vars(0x6e7429d5, 0x11de1779, 0x5a2f5ea5, 0x3575227e)
    case 42 => Vars(0x3575227e, 0xfadcaa38, 0x11de1779, 0x5a2f5ea5)
    case 43 => Vars(0x5a2f5ea5, 0x31c465ca, 0xfadcaa38, 0x11de1779)
    case 44 => Vars(0x11de1779, 0x4c6124f4, 0x31c465ca, 0xfadcaa38)
    case 45 => Vars(0xfadcaa38, 0x7f2e507b, 0x4c6124f4, 0x31c465ca)
    case 46 => Vars(0x31c465ca, 0x99d9679d, 0x7f2e507b, 0x4c6124f4)
    case 47 => Vars(0x4c6124f4, 0x8fae6399, 0x99d9679d, 0x7f2e507b)
    case 48 => Vars(0x7f2e507b, 0x7beb9700, 0x8fae6399, 0x99d9679d)
    case 49 => Vars(0x99d9679d, 0x7b201df8, 0x7beb9700, 0x8fae6399)
    case 50 => Vars(0x8fae6399, 0xf4e8e96e, 0x7b201df8, 0x7beb9700)
    case 51 => Vars(0x7beb9700, 0xb298cefd, 0xf4e8e96e, 0x7b201df8)
    case 52 => Vars(0x7b201df8, 0x8bf025c4, 0xb298cefd, 0xf4e8e96e)
    case 53 => Vars(0xf4e8e96e, 0x06cc5e8a, 0x8bf025c4, 0xb298cefd)
    case 54 => Vars(0xb298cefd, 0x5b0d97aa, 0x06cc5e8a, 0x8bf025c4)
    case 55 => Vars(0x8bf025c4, 0x7d632dd0, 0x5b0d97aa, 0x06cc5e8a)
    case 56 => Vars(0x06cc5e8a, 0x3bfa2c27, 0x7d632dd0, 0x5b0d97aa)
    case 57 => Vars(0x5b0d97aa, 0x7f81cc35, 0x3bfa2c27, 0x7d632dd0)
    case 58 => Vars(0x7d632dd0, 0x094454ab, 0x7f81cc35, 0x3bfa2c27)
    case 59 => Vars(0x3bfa2c27, 0x4f9dbe3f, 0x094454ab, 0x7f81cc35)
    case 60 => Vars(0x7f81cc35, 0x7327d604, 0x4f9dbe3f, 0x094454ab)
    case 61 => Vars(0x094454ab, 0x310ade8f, 0x7327d604, 0x4f9dbe3f)
    case 62 => Vars(0x4f9dbe3f, 0x624d8cb2, 0x310ade8f, 0x7327d604)
    case 63 => Vars(0x7327d604, 0xe484b9d8, 0x624d8cb2, 0x310ade8f)
    case _ => Vars(0x310ade8f, 0xc08226b3, 0xe484b9d8, 0x624d8cb2)
  }

  /** The word that each operation takes. */
  function Taken(i: nat): word {
    match i
    case 0 => 0x80636261 case 19 => 0x80636261 case 41 => 0x80636261 case 48 => 0x80636261
    case 14 => 0x18 case 25 => 0x18 case 35 => 0x18 case 50 => 0x18
    case _ => 0
  }

  lemma TakenIs(i: nat)
    requires i < 64
    ensures Taken(i) == WordOf(Index(i))
  {
  }

  function Operated(i: nat, v: Vars, w: word): Vars {
    Vars(v.d, Set(Auxiliary(i, v.b, v.c, v.d), v.a, v.b, w, Shift(i), T(i)), v.b, v.c)
  }

  lemma OperationOf0(t: nat)
    requires 0 <= t < 8
    ensures Operated(t, VarsAfter(t), Taken(t)) == VarsAfter(t + 1)
  {
    match t
    case 0 => case 1 => case 2 => case 3 => case 4 => case 5 => case 6 => case 7 =>
  }

  lemma OperationOf1(t: nat)
    requires 8 <= t < 16
    ensures Operated(t, VarsAfter(t), Taken(t)) == VarsAfter(t + 1)
  {
    match t
    case 8 => case 9 => case 10 => case 11 => case 12 => case 13 => case 14 => case 15 =>
  }

  lemma OperationOf2(t: nat)
    requires 16 <= t < 24
    ensures Operated(t, VarsAfter(t), Taken(t)) == VarsAfter(t + 1)
  {
    match t
    case 16 => case 17 => case 18 => case 19 => case 20 => case 21 => case 22 => case 23 =>
  }

  lemma OperationOf3(t: nat)
    requires 24 <= t < 32
    ensures Operated(t, VarsAfter(t), Taken(t)) == VarsAfter(t + 1)
  {
    match t
    case 24 => case 25 => case 26 => case 27 => case 28 => case 29 => case 30 => case 31 =>
  }

  lemma OperationOf4(t: nat)
    requires 32 <= t < 40
    ensures Operated(t, VarsAfter(t), Taken(t)) == VarsAfter(t + 1)
  {
    match t
    case 32 => case 33 => case 34 => case 35 => case 36 => case 37 => case 38 => case 39 =>
  }

  lemma OperationOf5(t: nat)
    requires 40 <= t < 48
    ensures Operated(t, VarsAfter(t), Taken(t)) == VarsAfter(t + 1)
  {
    match t
    case 40 => case 41 => case 42 => case 43 => case 44 => case 45 => case 46 => case 47 =>
  }

  lemma OperationOf6(t: nat)
    requires 48 <= t < 56
    ensures Operated(t, VarsAfter(t), Taken(t)) == VarsAfter(t + 1)
  {
    match t
    case 48 => case 49 => case 50 => case 51 => case 52 => case 53 => case 54 => case 55 =>
  }

  lemma OperationOf7(t: nat)
    requires 56 <= t < 64
    ensures Operated(t, VarsAfter(t), Taken(t)) == VarsAfter(t + 1)
  {
    match t
    case 56 => case 57 => case 58 => case 59 => case 60 => case 61 => case 62 => case 63 =>
  }

  lemma OperationOf(t: nat)
    requires 0 <= t < 64
    ensures Operated(t, VarsAfter(t), Taken(t)) == VarsAfter(t + 1)
  {
    if t < 8 {
      OperationOf0(t);
    } else if t < 16 {
      OperationOf1(t);
    } else if t < 24 {
      OperationOf2(t);
    } else if t < 32 {
      OperationOf3(t);
    } else if t < 40 {
      OperationOf4(t);
    } else if t < 48 {
      OperationOf5(t);
    } else if t < 56 {
      OperationOf6(t);
    } else {
      OperationOf7(t);
    }
  }

  lemma {:induction false} StepsAre(x: seq<word>, n: nat)
    requires |x| == 16 && (forall k :: 0 <= k < 16 ==> x[k] == WordOf(k)) && n <= 64
    ensures Steps(INITIAL, x, n) == VarsAfter(n)
  {
    if n == 0 {
      Beginning();
    } else {
      hide WordOf, VarsAfter, Set, Auxiliary, Shift, T, Index, Taken;
      StepsAre(x, n - 1);
      OperationOf(n - 1);
      TakenIs(n - 1);
    }
  }

  lemma Beginning()
    ensures VarsAfter(0) == INITIAL
  {
  }

  lemma AbcIs()
    ensures Padded(ABC, LengthBytes(24)) == Abc()
  {
    LengthIs();
    assert Gap(3) == 52;
    hide Zeros, LengthBytes, Gap;
  }

  lemma LengthIs()
    ensures LengthBytes(24) == [0x18, 0, 0, 0, 0, 0, 0, 0]
  {
    hide Octet;
    FirstOctet();
    forall k | 0 < k < 8
      ensures Octet(24, k) == 0
    {
      OtherOctet(24, k);
    }
  }

  lemma FirstOctet()
    ensures Octet(24, 0) == 0x18
  {
  }

  lemma OtherOctet(n: nat, k: nat)
    requires n < 256 && 0 < k < 8
    ensures Octet(n, k) == 0
  {
  }

  lemma AbcWord(k: nat)
    requires k < 16
    ensures LittleEndian(Abc()[4 * k], Abc()[4 * k + 1], Abc()[4 * k + 2], Abc()[4 * k + 3]) == WordOf(k)
  {
    var m := Abc();
    if k == 0 {
      assert LittleEndian(0x61, 0x62, 0x63, 0x80) == 0x80636261;
    } else if k == 14 {
      assert LittleEndian(0x18, 0, 0, 0) == 0x18;
    } else {
      assert m[4 * k] == m[4 * k + 1] == m[4 * k + 2] == m[4 * k + 3] == 0;
      assert LittleEndian(0, 0, 0, 0) == 0;
    }
  }

  lemma {:induction false} WordsAre(n: nat)
    requires n <= 16
    ensures forall k :: 0 <= k < n ==> Words(Abc(), n)[k] == WordOf(k)
  {
    hide WordOf, LittleEndian, Abc, Words;
    if n > 0 {
      WordsAre(n - 1);
      NextWord(Abc(), n);
      AbcWord(n - 1);
    }
  }

  lemma NextWord(m: Block, n: nat)
    requires 0 < n <= 16
    ensures Words(m, n) == Words(m, n - 1) + [LittleEndian(m[4 * n - 4], m[4 * n - 3], m[4 * n - 2], m[4 * n - 1])]
  {
    hide LittleEndian;
  }

  lemma Sums()
    ensures var h, v := INITIAL, VarsAfter(64);
            Sum(h.a, v.a) == 0x98500190 && Sum(h.b, v.b) == 0xb04fd23c && Sum(h.c, v.c) == 0x7d3f96d6 &&
            Sum(h.d, v.d) == 0x727fe128
  {
  }

  lemma CompressAbc()
    ensures Compress(INITIAL, Abc()) == Vars(0x98500190, 0xb04fd23c, 0x7d3f96d6, 0x727fe128)
  {
    WordsAre(16);
    StepsAre(Words(Abc(), 16), 64);
    hide Words, Steps, Abc, WordOf;
    Sums();
    hide VarsAfter, Sum;
  }

  lemma OneBlock(m: Block)
    ensures Absorb(Compress, INITIAL, m) == Compress(INITIAL, m)
  {
    hide Compress;
    AbsorbOne(Compress, INITIAL, [], m);
    assert [] + m == m;
  }

  lemma HashOfAbc()
    ensures Hash(ABC) == Vars(0x98500190, 0xb04fd23c, 0x7d3f96d6, 0x727fe128)
  {
    AbcIs();
    CompressAbc();
    hide Compress, Abc, Padded, LengthBytes;
    OneBlock(Abc());
  }

  lemma AbcBytes()
    ensures WordBytes(0x98500190) == [0x90, 0x01, 0x50, 0x98]
    ensures WordBytes(0xb04fd23c) == [0x3c, 0xd2, 0x4f, 0xb0]
    ensures WordBytes(0x7d3f96d6) == [0xd6, 0x96, 0x3f, 0x7d]
    ensures WordBytes(0x727fe128) == [0x28, 0xe1, 0x7f, 0x72]
  {
  }

  /** MD5 of "abc" is 900150983cd24fb0d6963f7d28e17f72. */
  lemma DigestOfAbc()
    ensures Digest(ABC) == [
      0x90, 0x01, 0x50, 0x98, 0x3c, 0xd2, 0x4f, 0xb0,
      0xd6, 0x96, 0x3f, 0x7d, 0x28, 0xe1, 0x7f, 0x72]
  {
    HashOfAbc();
    AbcBytes();
    hide Hash, WordBytes;
  }
}
