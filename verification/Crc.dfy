// src/common/crc.c: the CRC of 16 bits by bits and by table.

module Crc {

  type word = bv16

  function Xor(x: word, y: word): word { x ^ y }

  function Shl(r: word): word { r << 1 }

  function TopBit(r: word): bool { r & 0x8000 != 0 }

  function LowBit(r: word): bool { r & 1 != 0 }

  /** One bit of the division. */
  function Step(poly: word, r: word): word {
    if TopBit(r) then Xor(Shl(r), poly) else Shl(r)
  }

  function High(b: bv8): word { (b as word) << 8 }

  function Low(b: bv8): word { b as word }

  function Top(r: word): bv8 { (r >> 8) as bv8 }

  function Bottom(r: word): bv8 { (r & 0xff) as bv8 }

  function XorByte(a: bv8, b: bv8): bv8 { a ^ b }

  function Left8(r: word): word { r << 8 }

  // ----- Words

  lemma XorCommutes(x: word, y: word)
    ensures Xor(x, y) == Xor(y, x)
  {
  }

  lemma XorAssociates(x: word, y: word, z: word)
    ensures Xor(Xor(x, y), z) == Xor(x, Xor(y, z))
  {
  }

  lemma XorTwice(x: word, y: word)
    ensures Xor(Xor(x, y), y) == x
  {
  }

  lemma XorZero(x: word)
    ensures Xor(x, 0) == x && Xor(x, x) == 0
  {
  }

  lemma ShlXor(x: word, y: word)
    ensures Shl(Xor(x, y)) == Xor(Shl(x), Shl(y))
  {
  }

  lemma TopBitXor(x: word, y: word)
    ensures TopBit(Xor(x, y)) <==> TopBit(x) != TopBit(y)
  {
  }

  lemma LowBitXor(x: word, y: word)
    ensures LowBit(Xor(x, y)) <==> LowBit(x) != LowBit(y)
  {
  }

  lemma ShlBits(r: word)
    ensures !LowBit(Shl(r)) && (TopBit(r) ==> (Shl(r) >> 1) | 0x8000 == r) && (!TopBit(r) ==> Shl(r) >> 1 == r)
  {
  }

  /** A word is its high byte and its low byte. */
  lemma TwoBytes(r: word)
    ensures r == Xor(High(Top(r)), Low(Bottom(r)))
  {
  }

  lemma BytesOf(a: bv8, b: bv8)
    ensures Top(Xor(High(a), Low(b))) == a && Bottom(Xor(High(a), Low(b))) == b
  {
  }

  lemma HighXor(a: bv8, b: bv8)
    ensures High(XorByte(a, b)) == Xor(High(a), High(b))
  {
  }

  lemma Left8Is(r: word)
    ensures Left8(r) == High(Bottom(r))
  {
  }

  // ----- Division by the polynomial

  /** n bits of the division. */
  function Steps(poly: word, r: word, n: nat): word {
    if n == 0 then r else Step(poly, Steps(poly, r, n - 1))
  }

  lemma StepLinear(poly: word, x: word, y: word)
    ensures Step(poly, Xor(x, y)) == Xor(Step(poly, x), Step(poly, y))
  {
    hide Xor, Shl, TopBit;
    TopBitXor(x, y);
    ShlXor(x, y);
    var a, b := Shl(x), Shl(y);
    XorAssociates(a, b, poly);
    XorAssociates(a, poly, b);
    XorCommutes(b, poly);
    XorAssociates(Xor(a, poly), b, poly);
    XorTwice(Xor(a, b), poly);
  }

  lemma {:induction false} StepsLinear(poly: word, x: word, y: word, n: nat)
    ensures Steps(poly, Xor(x, y), n) == Xor(Steps(poly, x, n), Steps(poly, y, n))
  {
    hide Xor, Step;
    if n > 0 {
      StepsLinear(poly, x, y, n - 1);
      StepLinear(poly, Steps(poly, x, n - 1), Steps(poly, y, n - 1));
    }
  }

  /** The low byte moves up without a division. */
  lemma LowByteMoves(poly: word, b: bv8)
    ensures Steps(poly, Low(b), 8) == High(b)
  {
    LowShifts(b);
    hide Shl, TopBit, Low, High;
    var r0 := Low(b);
    var r1 := Shl(r0);
    assert Steps(poly, r0, 1) == r1;
    var r2 := Shl(r1);
    assert Steps(poly, r0, 2) == r2;
    var r3 := Shl(r2);
    assert Steps(poly, r0, 3) == r3;
    var r4 := Shl(r3);
    assert Steps(poly, r0, 4) == r4;
    var r5 := Shl(r4);
    assert Steps(poly, r0, 5) == r5;
    var r6 := Shl(r5);
    assert Steps(poly, r0, 6) == r6;
    var r7 := Shl(r6);
    assert Steps(poly, r0, 7) == r7;
  }

  lemma LowShifts(b: bv8)
    ensures var r0 := Low(b); var r1 := Shl(r0); var r2 := Shl(r1); var r3 := Shl(r2); var r4 := Shl(r3);
            var r5 := Shl(r4); var r6 := Shl(r5); var r7 := Shl(r6);
            !TopBit(r0) && !TopBit(r1) && !TopBit(r2) && !TopBit(r3) && !TopBit(r4) && !TopBit(r5) && !TopBit(r6) &&
            !TopBit(r7) &&
            Shl(r7) == High(b)
  {
  }

  /** crcTable of builds for CCITT. */
  function CcittTable(d: bv8): word {
    match d >> 4
    case 0 => (match d & 0xf
      case 0 => 0x0000 case 1 => 0x1021 case 2 => 0x2042 case 3 => 0x3063
      case 4 => 0x4084 case 5 => 0x50a5 case 6 => 0x60c6 case 7 => 0x70e7
      case 8 => 0x8108 case 9 => 0x9129 case 10 => 0xa14a case 11 => 0xb16b
      case 12 => 0xc18c case 13 => 0xd1ad case 14 => 0xe1ce case _ => 0xf1ef)
    case 1 => (match d & 0xf
      case 0 => 0x1231 case 1 => 0x0210 case 2 => 0x3273 case 3 => 0x2252
      case 4 => 0x52b5 case 5 => 0x4294 case 6 => 0x72f7 case 7 => 0x62d6
      case 8 => 0x9339 case 9 => 0x8318 case 10 => 0xb37b case 11 => 0xa35a
      case 12 => 0xd3bd case 13 => 0xc39c case 14 => 0xf3ff case _ => 0xe3de)
    case 2 => (match d & 0xf
      case 0 => 0x2462 case 1 => 0x3443 case 2 => 0x0420 case 3 => 0x1401
      case 4 => 0x64e6 case 5 => 0x74c7 case 6 => 0x44a4 case 7 => 0x5485
      case 8 => 0xa56a case 9 => 0xb54b case 10 => 0x8528 case 11 => 0x9509
      case 12 => 0xe5ee case 13 => 0xf5cf case 14 => 0xc5ac case _ => 0xd58d)
    case 3 => (match d & 0xf
      case 0 => 0x3653 case 1 => 0x2672 case 2 => 0x1611 case 3 => 0x0630
      case 4 => 0x76d7 case 5 => 0x66f6 case 6 => 0x5695 case 7 => 0x46b4
      case 8 => 0xb75b case 9 => 0xa77a case 10 => 0x9719 case 11 => 0x8738
      case 12 => 0xf7df case 13 => 0xe7fe case 14 => 0xd79d case _ => 0xc7bc)
    case 4 => (match d & 0xf
      case 0 => 0x48c4 case 1 => 0x58e5 case 2 => 0x6886 case 3 => 0x78a7
      case 4 => 0x0840 case 5 => 0x1861 case 6 => 0x2802 case 7 => 0x3823
      case 8 => 0xc9cc case 9 => 0xd9ed case 10 => 0xe98e case 11 => 0xf9af
      case 12 => 0x8948 case 13 => 0x9969 case 14 => 0xa90a case _ => 0xb92b)
    case 5 => (match d & 0xf
      case 0 => 0x5af5 case 1 => 0x4ad4 case 2 => 0x7ab7 case 3 => 0x6a96
      case 4 => 0x1a71 case 5 => 0x0a50 case 6 => 0x3a33 case 7 => 0x2a12
      case 8 => 0xdbfd case 9 => 0xcbdc case 10 => 0xfbbf case 11 => 0xeb9e
      case 12 => 0x9b79 case 13 => 0x8b58 case 14 => 0xbb3b case _ => 0xab1a)
    case 6 => (match d & 0xf
      case 0 => 0x6ca6 case 1 => 0x7c87 case 2 => 0x4ce4 case 3 => 0x5cc5
      case 4 => 0x2c22 case 5 => 0x3c03 case 6 => 0x0c60 case 7 => 0x1c41
      case 8 => 0xedae case 9 => 0xfd8f case 10 => 0xcdec case 11 => 0xddcd
      case 12 => 0xad2a case 13 => 0xbd0b case 14 => 0x8d68 case _ => 0x9d49)
    case 7 => (match d & 0xf
      case 0 => 0x7e97 case 1 => 0x6eb6 case 2 => 0x5ed5 case 3 => 0x4ef4
      case 4 => 0x3e13 case 5 => 0x2e32 case 6 => 0x1e51 case 7 => 0x0e70
      case 8 => 0xff9f case 9 => 0xefbe case 10 => 0xdfdd case 11 => 0xcffc
      case 12 => 0xbf1b case 13 => 0xaf3a case 14 => 0x9f59 case _ => 0x8f78)
    case 8 => (match d & 0xf
      case 0 => 0x9188 case 1 => 0x81a9 case 2 => 0xb1ca case 3 => 0xa1eb
      case 4 => 0xd10c case 5 => 0xc12d case 6 => 0xf14e case 7 => 0xe16f
      case 8 => 0x1080 case 9 => 0x00a1 case 10 => 0x30c2 case 11 => 0x20e3
      case 12 => 0x5004 case 13 => 0x4025 case 14 => 0x7046 case _ => 0x6067)
    case 9 => (match d & 0xf
      case 0 => 0x83b9 case 1 => 0x9398 case 2 => 0xa3fb case 3 => 0xb3da
      case 4 => 0xc33d case 5 => 0xd31c case 6 => 0xe37f case 7 => 0xf35e
      case 8 => 0x02b1 case 9 => 0x1290 case 10 => 0x22f3 case 11 => 0x32d2
      case 12 => 0x4235 case 13 => 0x5214 case 14 => 0x6277 case _ => 0x7256)
    case 10 => (match d & 0xf
      case 0 => 0xb5ea case 1 => 0xa5cb case 2 => 0x95a8 case 3 => 0x8589
      case 4 => 0xf56e case 5 => 0xe54f case 6 => 0xd52c case 7 => 0xc50d
      case 8 => 0x34e2 case 9 => 0x24c3 case 10 => 0x14a0 case 11 => 0x0481
      case 12 => 0x7466 case 13 => 0x6447 case 14 => 0x5424 case _ => 0x4405)
    case 11 => (match d & 0xf
      case 0 => 0xa7db case 1 => 0xb7fa case 2 => 0x8799 case 3 => 0x97b8
      case 4 => 0xe75f case 5 => 0xf77e case 6 => 0xc71d case 7 => 0xd73c
      case 8 => 0x26d3 case 9 => 0x36f2 case 10 => 0x0691 case 11 => 0x16b0
      case 12 => 0x6657 case 13 => 0x7676 case 14 => 0x4615 case _ => 0x5634)
    case 12 => (match d & 0xf
      case 0 => 0xd94c case 1 => 0xc96d case 2 => 0xf90e case 3 => 0xe92f
      case 4 => 0x99c8 case 5 => 0x89e9 case 6 => 0xb98a case 7 => 0xa9ab
      case 8 => 0x5844 case 9 => 0x4865 case 10 => 0x7806 case 11 => 0x6827
      case 12 => 0x18c0 case 13 => 0x08e1 case 14 => 0x3882 case _ => 0x28a3)
    case 13 => (match d & 0xf
      case 0 => 0xcb7d case 1 => 0xdb5c case 2 => 0xeb3f case 3 => 0xfb1e
      case 4 => 0x8bf9 case 5 => 0x9bd8 case 6 => 0xabbb case 7 => 0xbb9a
      case 8 => 0x4a75 case 9 => 0x5a54 case 10 => 0x6a37 case 11 => 0x7a16
      case 12 => 0x0af1 case 13 => 0x1ad0 case 14 => 0x2ab3 case _ => 0x3a92)
    case 14 => (match d & 0xf
      case 0 => 0xfd2e case 1 => 0xed0f case 2 => 0xdd6c case 3 => 0xcd4d
      case 4 => 0xbdaa case 5 => 0xad8b case 6 => 0x9de8 case 7 => 0x8dc9
      case 8 => 0x7c26 case 9 => 0x6c07 case 10 => 0x5c64 case 11 => 0x4c45
      case 12 => 0x3ca2 case 13 => 0x2c83 case 14 => 0x1ce0 case _ => 0x0cc1)
    case _ => (match d & 0xf
      case 0 => 0xef1f case 1 => 0xff3e case 2 => 0xcf5d case 3 => 0xdf7c
      case 4 => 0xaf9b case 5 => 0xbfba case 6 => 0x8fd9 case 7 => 0x9ff8
      case 8 => 0x6e17 case 9 => 0x7e36 case 10 => 0x4e55 case 11 => 0x5e74
      case 12 => 0x2e93 case 13 => 0x3eb2 case 14 => 0x0ed1 case _ => 0x1ef0)
  }

  lemma EightSteps(poly: word, r: word)
    ensures Steps(poly, r, 8) ==
            Step(poly, Step(poly, Step(poly, Step(poly, Step(poly, Step(poly, Step(poly, Step(poly, r))))))))
  {
    hide Step;
    assert Steps(poly, r, 1) == Step(poly, r);
    assert Steps(poly, r, 2) == Step(poly, Step(poly, r));
    assert Steps(poly, r, 4) == Step(poly, Step(poly, Steps(poly, r, 2)));
    assert Steps(poly, r, 6) == Step(poly, Step(poly, Steps(poly, r, 4)));
  }

  /** The fixed table holds what crcInit would compute. */
  lemma CcittRemainder(d: bv8)
    ensures CcittTable(d) == Steps(0x1021, High(d), 8)
  {
    EightSteps(0x1021, High(d));
    hide Steps;
  }

  // ----- A byte at a time

  /** A byte brought into the remainder and divided bit by bit. */
  function SlowByte(poly: word, r: word, b: bv8): word {
    Steps(poly, Xor(r, High(b)), 8)
  }

  function FastByte(table: seq<word>, r: word, b: bv8): word
    requires |table| == 256
  {
    Xor(table[XorByte(b, Top(r)) as int], Left8(r))
  }

  /** A table that holds the remainder of every byte. */
  ghost predicate IsTable(poly: word, table: seq<word>) {
    |table| == 256 && forall d: bv8 :: table[d as int] == Steps(poly, High(d), 8)
  }

  lemma ByteAgrees(poly: word, table: seq<word>, r: word, b: bv8)
    requires IsTable(poly, table)
    ensures FastByte(table, r, b) == SlowByte(poly, r, b)
  {
    hide Xor, High, Low, Top, Bottom, XorByte, Left8, Steps;
    var h, l := High(Top(r)), Low(Bottom(r));
    TwoBytes(r);
    HighXor(b, Top(r));
    XorCommutes(Xor(h, l), High(b));
    XorAssociates(High(b), h, l);
    StepsLinear(poly, Xor(High(b), h), l, 8);
    LowByteMoves(poly, Bottom(r));
    Left8Is(r);
  }

  // ----- Messages

  function Remainder(poly: word, r: word, message: seq<bv8>): word {
    if message == [] then r
    else SlowByte(poly, Remainder(poly, r, message[..|message| - 1]), message[|message| - 1])
  }

  lemma {:induction false} RemainderJoin(poly: word, r: word, a: seq<bv8>, b: seq<bv8>)
    ensures Remainder(poly, r, a + b) == Remainder(poly, Remainder(poly, r, a), b)
  {
    hide SlowByte;
    if b == [] {
      assert a + b == a;
    } else {
      RemainderJoin(poly, r, a, b[..|b| - 1]);
      assert (a + b)[..|a + b| - 1] == a + b[..|b| - 1];
    }
  }

  /** Two bytes at once, the first in the high half. */
  function Pair(a: bv8, b: bv8): word { Xor(High(a), Low(b)) }

  lemma RemainderOfTwo(poly: word, r: word, a: bv8, b: bv8)
    ensures Remainder(poly, r, [a, b]) == Steps(poly, Xor(r, Pair(a, b)), 16)
  {
    hide Xor, High, Low, Steps;
    assert [a, b][..1] == [a] && [a][..0] == [];
    assert Remainder(poly, r, [a]) == SlowByte(poly, r, a);
    assert Remainder(poly, r, [a, b]) == SlowByte(poly, SlowByte(poly, r, a), b);
    var first := Xor(r, High(a));
    LowByteMoves(poly, b);
    StepsLinear(poly, first, Low(b), 8);
    XorAssociates(r, High(a), Low(b));
    StepsJoin(poly, Xor(first, Low(b)), 8, 8);
  }

  lemma {:induction false} StepsJoin(poly: word, r: word, m: nat, n: nat)
    ensures Steps(poly, r, m + n) == Steps(poly, Steps(poly, r, m), n)
  {
    hide Step;
    if n > 0 {
      StepsJoin(poly, r, m, n - 1);
    }
  }

  // ----- The configuration and the two functions

  /** The settings that the source fixes when it is compiled. */
  datatype Standard = Standard(poly: word, initial: word, finalXor: word, reflectData: bool, reflectRemainder: bool)

  const CCITT := Standard(0x1021, 0xffff, 0x0000, false, false)
  const CRC16 := Standard(0x8005, 0x0000, 0x0000, true, true)

  function OneBit(k: nat): word {
    match k
    case 0 => 0x0001 case 1 => 0x0002 case 2 => 0x0004 case 3 => 0x0008
    case 4 => 0x0010 case 5 => 0x0020 case 6 => 0x0040 case 7 => 0x0080
    case 8 => 0x0100 case 9 => 0x0200 case 10 => 0x0400 case 11 => 0x0800
    case 12 => 0x1000 case 13 => 0x2000 case 14 => 0x4000 case 15 => 0x8000
    case _ => 0
  }

  function Or(x: word, y: word): word { x | y }

  function Shr(x: word): word { x >> 1 }

  /** The lowest bits of data in the opposite order. */
  function Reflected(data: word, bits: nat): word {
    if bits == 0 then 0 else Or(if LowBit(data) then OneBit(bits - 1) else 0, Reflected(Shr(data), bits - 1))
  }

  // ----- What reflection does to the bits

  function And(x: word, y: word): word { x & y }

  predicate Bit(x: word, k: nat) {
    And(x, OneBit(k)) != 0
  }

  lemma AndOr(x: word, y: word, m: word)
    ensures And(Or(x, y), m) == Or(And(x, m), And(y, m))
  {
  }

  lemma AndZero(m: word)
    ensures And(0, m) == 0
  {
  }

  lemma OrZero(x: word, y: word)
    ensures Or(x, y) == 0 <==> x == 0 && y == 0
  {
  }

  lemma BitOr(x: word, y: word, m: word)
    ensures And(Or(x, y), m) != 0 <==> And(x, m) != 0 || And(y, m) != 0
    ensures And(0, m) == 0
  {
    AndOr(x, y, m);
    AndZero(m);
    OrZero(And(x, m), And(y, m));
    hide And, Or;
  }

  lemma BitOfOne(j: nat, k: nat)
    requires j < 16 && k < 16
    ensures Bit(OneBit(j), k) <==> j == k
  {
  }

  lemma BitShr(x: word, k: nat)
    requires k < 15
    ensures Bit(Shr(x), k) <==> Bit(x, k + 1)
  {
  }

  lemma BitLow(x: word)
    ensures Bit(x, 0) <==> LowBit(x)
  {
  }

  /** Bit k of the lowest bits goes to the mirrored place, and no other bit is set. */
  lemma {:induction false} ReflectedBit(data: word, bits: nat, k: nat)
    requires bits <= 16 && k < 16
    ensures Bit(Reflected(data, bits), k) <==> k < bits && Bit(data, bits - 1 - k)
    decreases bits
  {
    hide And, Or, Shr, LowBit, OneBit;
    BitOr(0, 0, OneBit(k));
    if bits > 0 {
      var first := if LowBit(data) then OneBit(bits - 1) else 0;
      BitOr(first, Reflected(Shr(data), bits - 1), OneBit(k));
      BitOfOne(bits - 1, k);
      BitLow(data);
      ReflectedBit(Shr(data), bits - 1, k);
      if k < bits - 1 {
        BitShr(data, bits - 2 - k);
      }
    }
  }

  lemma OrAssociates(x: word, y: word, z: word)
    ensures Or(Or(x, y), z) == Or(x, Or(y, z)) && Or(x, 0) == x && Or(0, x) == x
  {
  }

  method Reflect(data: word, nBits: nat) returns (reflection: word)
    ensures reflection == Reflected(data, nBits)
  {
    hide Or, Shr, LowBit, OneBit;
    reflection := 0;
    var rest, bit := data, 0;
    OrAssociates(Reflected(data, nBits), 0, 0);
    while bit < nBits
      invariant 0 <= bit <= nBits && Or(reflection, Reflected(rest, nBits - bit)) == Reflected(data, nBits)
    {
      OrAssociates(reflection, if LowBit(rest) then OneBit(nBits - 1 - bit) else 0,
                   Reflected(Shr(rest), nBits - bit - 1));
      OrAssociates(reflection, 0, 0);
      if LowBit(rest) {
        reflection := Or(reflection, OneBit(nBits - 1 - bit));
      }
      rest := Shr(rest);
      bit := bit + 1;
    }
    OrAssociates(reflection, 0, 0);
  }

  function Datum(s: Standard, b: bv8): bv8 {
    if s.reflectData then Bottom(Reflected(Low(b), 8)) else b
  }

  function Data(s: Standard, message: seq<bv8>): (d: seq<bv8>)
    ensures |d| == |message|
  {
    seq(|message|, i requires 0 <= i < |message| => Datum(s, message[i]))
  }

  function Final(s: Standard, r: word): word {
    Xor(if s.reflectRemainder then Reflected(r, 16) else r, s.finalXor)
  }

  /** The CRC of a message. */
  function Crc(s: Standard, message: seq<bv8>): word {
    Final(s, Remainder(s.poly, s.initial, Data(s, message)))
  }

  method ReflectData(s: Standard, b: bv8) returns (d: bv8)
    ensures d == Datum(s, b)
  {
    hide Reflected, Low, Bottom;
    d := b;
    if s.reflectData {
      var r := Reflect(Low(b), 8);
      d := Bottom(r);
    }
  }

  method Finish(s: Standard, remainder: word) returns (crc: word)
    ensures crc == Final(s, remainder)
  {
    hide Reflected, Xor;
    var r := remainder;
    if s.reflectRemainder {
      r := Reflect(remainder, 16);
    }
    crc := Xor(r, s.finalXor);
  }

  /** Eight bits of the division. */
  method DivideByte(poly: word, start: word) returns (remainder: word)
    ensures remainder == Steps(poly, start, 8)
  {
    hide Xor, Shl, TopBit;
    remainder := start;
    var bit := 8;
    while bit > 0
      invariant 0 <= bit <= 8 && remainder == Steps(poly, start, 8 - bit)
    {
      if TopBit(remainder) {
        remainder := Xor(Shl(remainder), poly);
      } else {
        remainder := Shl(remainder);
      }
      bit := bit - 1;
    }
  }

  method CrcSlow(s: Standard, message: seq<bv8>) returns (crc: word)
    ensures crc == Crc(s, message)
  {
    hide Xor, High, Datum, Steps, Final;
    var remainder, at := s.initial, 0;
    ghost var data := Data(s, message);
    while at < |message|
      invariant 0 <= at <= |message| && remainder == Remainder(s.poly, s.initial, data[..at])
    {
      assert data[..at + 1][..at] == data[..at];
      var d := ReflectData(s, message[at]);
      remainder := Xor(remainder, High(d));
      remainder := DivideByte(s.poly, remainder);
      at := at + 1;
    }
    assert data[..at] == data;
    crc := Finish(s, remainder);
  }

  /** Fills the table of a standard. */
  method CrcInit(s: Standard, crcTable: array<word>)
    requires crcTable.Length == 256
    modifies crcTable
    ensures IsTable(s.poly, crcTable[..])
  {
    hide High, Steps;
    var dividend := 0;
    while dividend < 256
      invariant 0 <= dividend <= 256
      invariant forall d: bv8 :: (d as int) < dividend ==> crcTable[d as int] == Steps(s.poly, High(d), 8)
    {
      var remainder := DivideByte(s.poly, High(dividend as bv8));
      crcTable[dividend] := remainder;
      dividend := dividend + 1;
    }
  }

  /** The CRC by table: the same as by bits when the table is the one of the standard. */
  method CrcFast(s: Standard, crcTable: seq<word>, message: seq<bv8>) returns (crc: word)
    requires IsTable(s.poly, crcTable)
    ensures crc == Crc(s, message)
  {
    hide Xor, XorByte, Top, Left8, Datum, SlowByte, Final, IsTable;
    TableSize(s.poly, crcTable);
    var remainder, at := s.initial, 0;
    ghost var all := Data(s, message);
    while at < |message|
      invariant 0 <= at <= |message| && remainder == Remainder(s.poly, s.initial, all[..at])
    {
      assert all[..at + 1][..at] == all[..at];
      var d := ReflectData(s, message[at]);
      ByteAgrees(s.poly, crcTable, remainder, d);
      var data := XorByte(d, Top(remainder));
      remainder := Xor(crcTable[data as int], Left8(remainder));
      at := at + 1;
    }
    assert all[..at] == all;
    crc := Finish(s, remainder);
  }

  lemma TableSize(poly: word, table: seq<word>)
    requires IsTable(poly, table)
    ensures |table| == 256
  {
  }

  /** The table that CCITT builds hold from the start. */
  function FixedTable(): (t: seq<word>)
    ensures |t| == 256
  {
    seq(256, i requires 0 <= i < 256 => CcittTable(i as bv8))
  }

  lemma FixedTableIsTable()
    ensures IsTable(CCITT.poly, FixedTable())
  {
    hide CcittTable, High, Steps;
    forall d: bv8
      ensures FixedTable()[d as int] == Steps(0x1021, High(d), 8)
    {
      CcittRemainder(d);
    }
  }

  // ----- Error detection

  /** The division can be undone when the polynomial is odd. */
  function Unstep(poly: word, s: word): word {
    if LowBit(s) then Or(Shr(Xor(s, poly)), 0x8000) else Shr(s)
  }

  lemma StepUndone(poly: word, r: word)
    requires LowBit(poly)
    ensures Unstep(poly, Step(poly, r)) == r
  {
    ShlBits(r);
    UpAndDown(r);
    hide Xor, Shl, Shr, Or, LowBit, TopBit;
    LowBitXor(Shl(r), poly);
    XorTwice(Shl(r), poly);
  }

  lemma UpAndDown(r: word)
    ensures TopBit(r) ==> Or(Shr(Shl(r)), 0x8000) == r
    ensures !TopBit(r) ==> Shr(Shl(r)) == r
  {
  }

  lemma {:induction false} StepsInjective(poly: word, x: word, y: word, n: nat)
    requires LowBit(poly) && Steps(poly, x, n) == Steps(poly, y, n)
    ensures x == y
  {
    hide LowBit, Step, Unstep;
    if n > 0 {
      StepUndone(poly, Steps(poly, x, n - 1));
      StepUndone(poly, Steps(poly, y, n - 1));
      StepsInjective(poly, x, y, n - 1);
    }
  }

  /** Different remainders stay different whatever bytes follow. */
  lemma {:induction false} RemainderInjective(poly: word, x: word, y: word, message: seq<bv8>)
    requires LowBit(poly) && Remainder(poly, x, message) == Remainder(poly, y, message)
    ensures x == y
  {
    hide LowBit, Xor, High, Steps;
    if message != [] {
      var n := |message| - 1;
      var p, q, h := Remainder(poly, x, message[..n]), Remainder(poly, y, message[..n]), High(message[n]);
      StepsInjective(poly, Xor(p, h), Xor(q, h), 8);
      XorTwice(p, h);
      XorTwice(q, h);
      RemainderInjective(poly, x, y, message[..n]);
    }
  }

  /** An error within two adjacent bytes always changes the remainder. */
  lemma BurstDetected(poly: word, r: word, front: seq<bv8>, a: bv8, b: bv8, c: bv8, d: bv8, back: seq<bv8>)
    requires LowBit(poly) && (a != c || b != d)
    ensures Remainder(poly, r, front + [a, b] + back) != Remainder(poly, r, front + [c, d] + back)
  {
    hide LowBit, Steps, Xor, Remainder, Pair;
    var s := Remainder(poly, r, front);
    RemainderJoin(poly, r, front + [a, b], back);
    RemainderJoin(poly, r, front + [c, d], back);
    RemainderJoin(poly, r, front, [a, b]);
    RemainderJoin(poly, r, front, [c, d]);
    if Remainder(poly, s, [a, b]) == Remainder(poly, s, [c, d]) {
      RemainderOfTwo(poly, s, a, b);
      RemainderOfTwo(poly, s, c, d);
      StepsInjective(poly, Xor(s, Pair(a, b)), Xor(s, Pair(c, d)), 16);
      XorCommutes(s, Pair(a, b));
      XorCommutes(s, Pair(c, d));
      XorTwice(Pair(a, b), s);
      XorTwice(Pair(c, d), s);
      PairBytes(a, b);
      PairBytes(c, d);
    } else if Remainder(poly, r, front + [a, b] + back) == Remainder(poly, r, front + [c, d] + back) {
      RemainderInjective(poly, Remainder(poly, s, [a, b]), Remainder(poly, s, [c, d]), back);
    }
  }

  /** No two different pairs of bytes have the same remainder. */
  ghost predicate TellsPairsApart(poly: word, r: word) {
    forall a, b, c, d :: a != c || b != d ==> Remainder(poly, r, [a, b]) != Remainder(poly, r, [c, d])
  }

  lemma EvenStepsMeet(poly: word)
    requires !LowBit(poly)
    ensures Step(poly, 0x8000) == Step(poly, Shr(poly)) && Shr(poly) != 0x8000
  {
    EvenShift(poly);
    assert Shl(0x8000) == 0;
    XorCommutes(0, poly);
    XorZero(poly);
  }

  lemma EvenShift(poly: word)
    requires !LowBit(poly)
    ensures !TopBit(Shr(poly)) && TopBit(0x8000) && Shl(Shr(poly)) == poly
  {
  }

  /** The pair of bytes that brings the remainder r to x. */
  lemma PairTo(poly: word, r: word, x: word)
    ensures var p := Xor(r, x); Remainder(poly, r, [Top(p), Bottom(p)]) == Steps(poly, x, 16)
  {
    hide Steps, Remainder, High, Low, Top, Bottom;
    var p := Xor(r, x);
    RemainderOfTwo(poly, r, Top(p), Bottom(p));
    TwoBytes(p);
    XorCommutes(r, p);
    XorCommutes(r, x);
    XorTwice(x, r);
    hide Xor;
  }

  /** Errors within two bytes are always detected exactly when the polynomial is odd. */
  lemma PairsToldApart(poly: word, r: word)
    ensures TellsPairsApart(poly, r) <==> LowBit(poly)
  {
    hide LowBit, Steps, Xor, Remainder, Shr, Step, Top, Bottom;
    if LowBit(poly) {
      forall a, b, c, d | a != c || b != d
        ensures Remainder(poly, r, [a, b]) != Remainder(poly, r, [c, d])
      {
        BurstDetected(poly, r, [], a, b, c, d, []);
        assert [] + [a, b] + [] == [a, b] && [] + [c, d] + [] == [c, d];
      }
    } else {
      EvenStepsMeet(poly);
      var x, y := 0x8000, Shr(poly);
      StepsJoin(poly, x, 1, 15);
      StepsJoin(poly, y, 1, 15);
      OneStep(poly, x);
      OneStep(poly, y);
      PairTo(poly, r, x);
      PairTo(poly, r, y);
      var p, q := Xor(r, x), Xor(r, y);
      XorCommutes(r, x);
      XorCommutes(r, y);
      XorTwice(x, r);
      XorTwice(y, r);
      TwoBytes(p);
      TwoBytes(q);
      assert Remainder(poly, r, [Top(p), Bottom(p)]) == Remainder(poly, r, [Top(q), Bottom(q)]);
    }
  }

  lemma OneStep(poly: word, r: word)
    ensures Steps(poly, r, 1) == Step(poly, r)
  {
    hide Step;
  }

  lemma PairBytes(a: bv8, b: bv8)
    ensures Top(Pair(a, b)) == a && Bottom(Pair(a, b)) == b
  {
    BytesOf(a, b);
  }

  // ----- Reflection loses nothing

  lemma LowAndRest(x: word, y: word)
    requires Shr(x) == Shr(y) && (LowBit(x) <==> LowBit(y))
    ensures x == y
  {
  }

  function Shifted(x: word, n: nat): word
    decreases n
  {
    if n == 0 then x else Shifted(Shr(x), n - 1)
  }

  /** Words below 2^n with the same n bits are the same. */
  lemma {:induction false} SameBits(x: word, y: word, n: nat)
    requires n <= 16 && Shifted(x, n) == Shifted(y, n) == 0
    requires forall k :: 0 <= k < n ==> (Bit(x, k) <==> Bit(y, k))
    ensures x == y
    decreases n
  {
    hide Bit, Shr, LowBit;
    if n > 0 {
      forall k | 0 <= k < n - 1
        ensures Bit(Shr(x), k) <==> Bit(Shr(y), k)
      {
        BitShr(x, k);
        BitShr(y, k);
      }
      SameBits(Shr(x), Shr(y), n - 1);
      BitLow(x);
      BitLow(y);
      LowAndRest(x, y);
    }
  }

  lemma ShiftsEight(x: word, n: nat)
    ensures Shifted(x, n + 8) == Shifted(Shr(Shr(Shr(Shr(Shr(Shr(Shr(Shr(x)))))))), n)
  {
    hide Shr;
    assert Shifted(x, n + 8) == Shifted(Shr(x), n + 7);
    assert Shifted(x, n + 8) == Shifted(Shr(Shr(x)), n + 6);
    assert Shifted(x, n + 8) == Shifted(Shr(Shr(Shr(x))), n + 5);
    assert Shifted(x, n + 8) == Shifted(Shr(Shr(Shr(Shr(x)))), n + 4);
    assert Shifted(x, n + 8) == Shifted(Shr(Shr(Shr(Shr(Shr(x))))), n + 3);
    assert Shifted(x, n + 8) == Shifted(Shr(Shr(Shr(Shr(Shr(Shr(x)))))), n + 2);
    assert Shifted(x, n + 8) == Shifted(Shr(Shr(Shr(Shr(Shr(Shr(Shr(x))))))), n + 1);
  }

  lemma AllShifts(x: word, b: bv8)
    ensures Shifted(x, 16) == 0 && Shifted(Low(b), 8) == 0
  {
    var y := Shr(Shr(Shr(Shr(Shr(Shr(Shr(Shr(x))))))));
    ShiftsOut(x);
    ShiftsEight(x, 8);
    ShiftsEight(y, 0);
    ShiftsEight(Low(b), 0);
    hide Shr, Low;
  }

  lemma ShiftsOut(x: word)
    ensures var y := Shr(Shr(Shr(Shr(Shr(Shr(Shr(Shr(x))))))));
            Shr(Shr(Shr(Shr(Shr(Shr(Shr(Shr(y)))))))) == 0
    ensures forall b: bv8 :: Shr(Shr(Shr(Shr(Shr(Shr(Shr(Shr(Low(b))))))))) == 0
  {
  }

  /** Reflecting the lowest bits of words without others tells the words apart. */
  lemma ReflectedTells(x: word, y: word, bits: nat)
    requires bits <= 16 && Shifted(x, bits) == Shifted(y, bits) == 0 && Reflected(x, bits) == Reflected(y, bits)
    ensures x == y
  {
    hide Bit, Shifted, Reflected;
    forall k | 0 <= k < bits
      ensures Bit(x, k) <==> Bit(y, k)
    {
      ReflectedBit(x, bits, bits - 1 - k);
      ReflectedBit(y, bits, bits - 1 - k);
    }
    SameBits(x, y, bits);
  }

  lemma NoHighBits(r: word)
    requires !Bit(r, 8) && !Bit(r, 9) && !Bit(r, 10) && !Bit(r, 11)
    requires !Bit(r, 12) && !Bit(r, 13) && !Bit(r, 14) && !Bit(r, 15)
    ensures Low(Bottom(r)) == r
  {
  }

  lemma ByteReflected(b: bv8)
    ensures Low(Bottom(Reflected(Low(b), 8))) == Reflected(Low(b), 8)
  {
    hide Bit, Low, Bottom, Reflected;
    var r := Reflected(Low(b), 8);
    forall k | 8 <= k < 16
      ensures !Bit(r, k)
    {
      ReflectedBit(Low(b), 8, k);
    }
    NoHighBits(r);
  }

  lemma LowTells(a: bv8, b: bv8)
    ensures Low(a) == Low(b) ==> a == b
  {
  }

  lemma DatumTells(s: Standard, a: bv8, b: bv8)
    requires Datum(s, a) == Datum(s, b)
    ensures a == b
  {
    hide Low, Bottom, Reflected, Shifted;
    if s.reflectData {
      ByteReflected(a);
      ByteReflected(b);
      AllShifts(0, a);
      AllShifts(0, b);
      ReflectedTells(Low(a), Low(b), 8);
      LowTells(a, b);
    }
  }

  lemma FinalTells(s: Standard, x: word, y: word)
    requires Final(s, x) == Final(s, y)
    ensures x == y
  {
    hide Xor, Reflected, Shifted, Low;
    XorTwice(if s.reflectRemainder then Reflected(x, 16) else x, s.finalXor);
    XorTwice(if s.reflectRemainder then Reflected(y, 16) else y, s.finalXor);
    if s.reflectRemainder {
      AllShifts(x, 0);
      AllShifts(y, 0);
      ReflectedTells(x, y, 16);
    }
  }

  lemma DataOfPair(s: Standard, front: seq<bv8>, a: bv8, b: bv8, back: seq<bv8>)
    ensures Data(s, front + [a, b] + back) == Data(s, front) + [Datum(s, a), Datum(s, b)] + Data(s, back)
  {
    hide Datum;
  }

  /** Two messages that differ only in two adjacent bytes have different CRCs, under any standard whose
      polynomial is odd. */
  lemma ErrorDetected(s: Standard, front: seq<bv8>, a: bv8, b: bv8, c: bv8, d: bv8, back: seq<bv8>)
    requires LowBit(s.poly) && (a != c || b != d)
    ensures Crc(s, front + [a, b] + back) != Crc(s, front + [c, d] + back)
  {
    hide LowBit, Data, Datum, Final, Remainder;
    DataOfPair(s, front, a, b, back);
    DataOfPair(s, front, c, d, back);
    if Datum(s, a) == Datum(s, c) && Datum(s, b) == Datum(s, d) {
      DatumTells(s, a, c);
      DatumTells(s, b, d);
    }
    BurstDetected(s.poly, s.initial, Data(s, front), Datum(s, a), Datum(s, b), Datum(s, c), Datum(s, d), Data(s, back));
    var x := Remainder(s.poly, s.initial, Data(s, front + [a, b] + back));
    var y := Remainder(s.poly, s.initial, Data(s, front + [c, d] + back));
    if Final(s, x) == Final(s, y) {
      FinalTells(s, x, y);
    }
  }

  // ----- Bursts that begin and end anywhere in a byte

  /** The division when one bit of the message comes in. */
  function BitStep(poly: word, r: word, bit: bool): word {
    if TopBit(r) != bit then Xor(Shl(r), poly) else Shl(r)
  }

  function BitRemainder(poly: word, r: word, bits: seq<bool>): word
    decreases |bits|
  {
    if bits == [] then r else BitRemainder(poly, BitStep(poly, r, bits[0]), bits[1..])
  }

  /** The highest n bits of a word, the highest first. */
  function TopBits(h: word, n: nat): (bits: seq<bool>)
    ensures |bits| == n
    decreases n
  {
    if n == 0 then [] else [TopBit(h)] + TopBits(Shl(h), n - 1)
  }

  /** The bits of a message in the order in which they come in. */
  function Bits(data: seq<bv8>): (bits: seq<bool>)
    ensures |bits| == 8 * |data|
  {
    if data == [] then [] else Bits(data[..|data| - 1]) + TopBits(High(data[|data| - 1]), 8)
  }

  function Moved(h: word, n: nat): word
    decreases n
  {
    if n == 0 then h else Moved(Shl(h), n - 1)
  }

  lemma OneBitMore(poly: word, r: word, h: word)
    ensures Xor(BitStep(poly, r, TopBit(h)), Shl(h)) == Step(poly, Xor(r, h))
  {
    hide Xor, Shl, TopBit;
    TopBitXor(r, h);
    ShlXor(r, h);
    XorAssociates(Shl(r), poly, Shl(h));
    XorAssociates(Shl(r), Shl(h), poly);
    XorCommutes(poly, Shl(h));
  }

  /** Taking bits one by one is adding them at the top and dividing. */
  lemma {:induction false} BitsAtOnce(poly: word, r: word, h: word, n: nat)
    ensures Xor(BitRemainder(poly, r, TopBits(h, n)), Moved(h, n)) == Steps(poly, Xor(r, h), n)
    decreases n
  {
    hide Xor, Shl, TopBit, Step, BitStep;
    if n > 0 {
      OneBitMore(poly, r, h);
      BitsAtOnce(poly, BitStep(poly, r, TopBit(h)), Shl(h), n - 1);
      OneStep(poly, Xor(r, h));
      StepsJoin(poly, Xor(r, h), 1, n - 1);
      assert TopBits(h, n)[1..] == TopBits(Shl(h), n - 1);
    }
  }

  lemma MovesEight(x: word, n: nat)
    ensures Moved(x, n + 8) == Moved(Shl(Shl(Shl(Shl(Shl(Shl(Shl(Shl(x)))))))), n)
  {
    hide Shl;
    assert Moved(x, n + 8) == Moved(Shl(x), n + 7);
    assert Moved(x, n + 8) == Moved(Shl(Shl(x)), n + 6);
    assert Moved(x, n + 8) == Moved(Shl(Shl(Shl(x))), n + 5);
    assert Moved(x, n + 8) == Moved(Shl(Shl(Shl(Shl(x)))), n + 4);
    assert Moved(x, n + 8) == Moved(Shl(Shl(Shl(Shl(Shl(x))))), n + 3);
    assert Moved(x, n + 8) == Moved(Shl(Shl(Shl(Shl(Shl(Shl(x)))))), n + 2);
    assert Moved(x, n + 8) == Moved(Shl(Shl(Shl(Shl(Shl(Shl(Shl(x))))))), n + 1);
  }

  lemma AllMoves(x: word, b: bv8)
    ensures Moved(x, 16) == 0 && Moved(High(b), 8) == 0
  {
    var y := Shl(Shl(Shl(Shl(Shl(Shl(Shl(Shl(x))))))));
    MovesOut(x);
    MovesEight(x, 8);
    MovesEight(y, 0);
    MovesEight(High(b), 0);
    hide Shl, High;
  }

  lemma MovesOut(x: word)
    ensures var y := Shl(Shl(Shl(Shl(Shl(Shl(Shl(Shl(x))))))));
            Shl(Shl(Shl(Shl(Shl(Shl(Shl(Shl(y)))))))) == 0
    ensures forall b: bv8 :: Shl(Shl(Shl(Shl(Shl(Shl(Shl(Shl(High(b))))))))) == 0
  {
  }

  lemma {:induction false} BitsJoin(poly: word, r: word, a: seq<bool>, b: seq<bool>)
    ensures BitRemainder(poly, r, a + b) == BitRemainder(poly, BitRemainder(poly, r, a), b)
    decreases |a|
  {
    hide BitStep;
    if a == [] {
      assert a + b == b;
    } else {
      BitsJoin(poly, BitStep(poly, r, a[0]), a[1..], b);
      assert (a + b)[1..] == a[1..] + b;
    }
  }

  /** The remainder of a message is that of its bits. */
  lemma {:induction false} RemainderOfBits(poly: word, r: word, data: seq<bv8>)
    ensures Remainder(poly, r, data) == BitRemainder(poly, r, Bits(data))
  {
    hide Steps, Xor, High, TopBits, BitStep, Moved;
    if data != [] {
      var n := |data| - 1;
      var before, h := Remainder(poly, r, data[..n]), High(data[n]);
      RemainderOfBits(poly, r, data[..n]);
      BitsAtOnce(poly, before, h, 8);
      AllMoves(0, data[n]);
      XorZero(BitRemainder(poly, before, TopBits(h, 8)));
      BitsJoin(poly, r, Bits(data[..n]), TopBits(h, 8));
    }
  }

  lemma BitShl(x: word, k: nat)
    requires k < 15
    ensures Bit(Shl(x), k + 1) <==> Bit(x, k)
  {
  }

  /** Two bit steps end apart by a shift, or else by an odd number. */
  lemma StepsDiffer(poly: word, x: word, y: word, b: bool, c: bool)
    requires LowBit(poly)
    ensures var d := Xor(BitStep(poly, x, b), BitStep(poly, y, c));
            if (TopBit(x) != b) == (TopBit(y) != c) then d == Shl(Xor(x, y)) else LowBit(d)
  {
    ShlBits(x);
    ShlBits(y);
    hide Xor, Shl, TopBit, LowBit;
    var a, e := Shl(x), Shl(y);
    ShlXor(x, y);
    XorCommutes(poly, e);
    XorAssociates(a, poly, Xor(e, poly));
    XorAssociates(poly, poly, e);
    XorTwice(e, poly);
    XorCommutes(Xor(e, poly), poly);
    LowBitXor(a, poly);
    LowBitXor(e, poly);
    LowBitXor(Xor(a, poly), e);
    LowBitXor(a, Xor(e, poly));
  }

  ghost predicate LowZeros(d: word, k: int) {
    forall i :: 0 <= i < k && i < 16 ==> !Bit(d, i)
  }

  /** At most 16 bits bring two remainders together only if those agree in the bits that stay, and equal remainders
      only if the bits are equal. */
  lemma {:induction false} BitsMeet(poly: word, x: word, y: word, u: seq<bool>, v: seq<bool>)
    requires LowBit(poly) && |u| == |v| <= 16 && BitRemainder(poly, x, u) == BitRemainder(poly, y, v)
    ensures LowZeros(Xor(x, y), 16 - |u|)
    ensures x == y ==> u == v
    decreases |u|
  {
    hide Xor, Shl, TopBit, LowBit, BitStep, Bit;
    if u == [] {
      XorZero(x);
      NoBitSet();
    } else {
      var p, q := BitStep(poly, x, u[0]), BitStep(poly, y, v[0]);
      BitsMeet(poly, p, q, u[1..], v[1..]);
      StepsDiffer(poly, x, y, u[0], v[0]);
      BitLow(Xor(p, q));
      assert !Bit(Xor(p, q), 0);
      var d := Xor(x, y);
      forall i | 0 <= i < 16 - |u|
        ensures !Bit(d, i)
      {
        BitShl(d, i);
        assert !Bit(Shl(d), i + 1);
      }
      if x == y {
        assert u == [u[0]] + u[1..] && v == [v[0]] + v[1..];
      }
    }
  }

  lemma NoBitSet()
    ensures LowZeros(0, 16)
  {
    hide And, OneBit;
    forall i | 0 <= i < 16
      ensures !Bit(0, i)
    {
      AndZero(OneBit(i));
    }
  }

  lemma {:induction false} BitsInjective(poly: word, x: word, y: word, bits: seq<bool>)
    requires LowBit(poly) && BitRemainder(poly, x, bits) == BitRemainder(poly, y, bits)
    ensures x == y
    decreases |bits|
  {
    hide Xor, Shl, Shr, Or, TopBit, LowBit, BitStep;
    if bits != [] {
      var b := bits[0];
      BitsInjective(poly, BitStep(poly, x, b), BitStep(poly, y, b), bits[1..]);
      StepsDiffer(poly, x, y, b, b);
      XorZero(BitStep(poly, x, b));
      NotOdd();
      ShiftedOut(Xor(x, y));
      TopBitXor(x, y);
      XorTwice(x, y);
      XorCommutes(0, y);
      XorZero(y);
    }
  }

  lemma NotOdd()
    ensures !LowBit(0)
  {
  }

  lemma ShiftedOut(d: word)
    ensures Shl(d) == 0 && !TopBit(d) ==> d == 0
  {
  }

  /** An error within 16 adjacent bits always changes the remainder. */
  lemma BitBurstDetected(poly: word, r: word, front: seq<bool>, u: seq<bool>, v: seq<bool>, back: seq<bool>)
    requires LowBit(poly) && |u| == |v| <= 16 && u != v
    ensures BitRemainder(poly, r, front + u + back) != BitRemainder(poly, r, front + v + back)
  {
    hide LowBit, BitRemainder, Xor;
    var s := BitRemainder(poly, r, front);
    BitsJoin(poly, r, front + u, back);
    BitsJoin(poly, r, front, u);
    BitsJoin(poly, r, front + v, back);
    BitsJoin(poly, r, front, v);
    if BitRemainder(poly, s, u) == BitRemainder(poly, s, v) {
      BitsMeet(poly, s, s, u, v);
    } else if BitRemainder(poly, r, front + u + back) == BitRemainder(poly, r, front + v + back) {
      BitsInjective(poly, BitRemainder(poly, s, u), BitRemainder(poly, s, v), back);
    }
  }

  /** Messages whose bits, in the order in which they are taken, differ only within 16 adjacent ones have
      different CRCs, under any standard whose polynomial is odd. */
  lemma BurstsDetected(s: Standard, m: seq<bv8>, m': seq<bv8>, front: seq<bool>, u: seq<bool>, v: seq<bool>,
                       back: seq<bool>)
    requires LowBit(s.poly) && |u| == |v| <= 16 && u != v
    requires Bits(Data(s, m)) == front + u + back && Bits(Data(s, m')) == front + v + back
    ensures Crc(s, m) != Crc(s, m')
  {
    hide LowBit, Data, Final, Remainder, BitRemainder, Bits;
    var x, y := Remainder(s.poly, s.initial, Data(s, m)), Remainder(s.poly, s.initial, Data(s, m'));
    RemainderOfBits(s.poly, s.initial, Data(s, m));
    RemainderOfBits(s.poly, s.initial, Data(s, m'));
    BitBurstDetected(s.poly, s.initial, front, u, v, back);
    if Final(s, x) == Final(s, y) {
      FinalTells(s, x, y);
    }
  }

  /** An error of 17 bits in the form of the polynomial is never noticed. */
  lemma LongBurstIsLost(poly: word, r: word, front: seq<bool>, b: bool, h: word, back: seq<bool>)
    ensures BitRemainder(poly, r, front + ([b] + TopBits(h, 16)) + back) ==
            BitRemainder(poly, r, front + ([!b] + TopBits(Xor(h, poly), 16)) + back)
  {
    var u, v := [b] + TopBits(h, 16), [!b] + TopBits(Xor(h, poly), 16);
    var s := BitRemainder(poly, r, front);
    BitsJoin(poly, r, front + u, back);
    BitsJoin(poly, r, front, u);
    BitsJoin(poly, r, front + v, back);
    BitsJoin(poly, r, front, v);
    hide Xor, Shl, TopBit, TopBits, Moved, Steps;
    var x, y, g := BitStep(poly, s, b), BitStep(poly, s, !b), Xor(h, poly);
    assert u[1..] == TopBits(h, 16) && v[1..] == TopBits(g, 16);
    BitsAtOnce(poly, x, h, 16);
    BitsAtOnce(poly, y, g, 16);
    AllMoves(h, 0);
    AllMoves(g, 0);
    XorZero(BitRemainder(poly, x, TopBits(h, 16)));
    XorZero(BitRemainder(poly, y, TopBits(g, 16)));
    BothShift(Shl(s), h, poly);
    hide BitRemainder;
    assert Xor(x, h) == Xor(y, g);
  }

  lemma BothShift(a: word, h: word, poly: word)
    ensures Xor(a, h) == Xor(Xor(a, poly), Xor(h, poly))
    ensures Xor(Xor(a, poly), h) == Xor(a, Xor(h, poly))
  {
  }

  lemma CcittIsRemainder(message: seq<bv8>)
    ensures Crc(CCITT, message) == Remainder(0x1021, 0xffff, message)
  {
    hide Remainder;
    assert Data(CCITT, message) == message;
    XorZero(Remainder(0x1021, 0xffff, message));
  }

  /** The remainder of a message followed by its own remainder is zero. */
  lemma OwnRemainder(poly: word, r: word, message: seq<bv8>)
    ensures var crc := Remainder(poly, r, message); Remainder(poly, r, message + [Top(crc), Bottom(crc)]) == 0
  {
    hide Steps, Remainder, Xor, High, Low, Top, Bottom;
    var crc := Remainder(poly, r, message);
    RemainderJoin(poly, r, message, [Top(crc), Bottom(crc)]);
    RemainderOfTwo(poly, crc, Top(crc), Bottom(crc));
    TwoBytes(crc);
    XorZero(crc);
    StepsOfZero(poly, 16);
  }

  lemma {:induction false} StepsOfZero(poly: word, n: nat)
    ensures Steps(poly, 0, n) == 0
  {
    if n > 0 {
      StepsOfZero(poly, n - 1);
    }
  }

  /** The CRC of a message followed by its own CRC, the high byte first, is zero. */
  lemma OwnCrc(message: seq<bv8>)
    ensures var crc := Crc(CCITT, message); Crc(CCITT, message + [Top(crc), Bottom(crc)]) == 0
  {
    CcittIsRemainder(message);
    OwnRemainder(0x1021, 0xffff, message);
    var crc := Crc(CCITT, message);
    CcittIsRemainder(message + [Top(crc), Bottom(crc)]);
    hide Crc, Remainder, Top, Bottom;
  }

  // ----- The check values of the two standards

  /** The remainders of the first bytes of a message. */
  ghost predicate Traces(poly: word, data: seq<bv8>, remainders: seq<word>) {
    |remainders| == |data| + 1 &&
    forall i :: 0 <= i < |data| ==> SlowByte(poly, remainders[i], data[i]) == remainders[i + 1]
  }

  lemma {:induction false} TraceEnds(poly: word, data: seq<bv8>, remainders: seq<word>)
    requires Traces(poly, data, remainders)
    ensures Remainder(poly, remainders[0], data) == remainders[|data|]
  {
    hide SlowByte;
    if data != [] {
      var n := |data| - 1;
      TraceEnds(poly, data[..n], remainders[..n + 1]);
    }
  }

  /** The digits 1 to 9 in ASCII, and with the bits of each byte reflected. */
  const DIGITS: seq<bv8> := [0x31, 0x32, 0x33, 0x34, 0x35, 0x36, 0x37, 0x38, 0x39]
  const REFLECTED_DIGITS: seq<bv8> := [0x8c, 0x4c, 0xcc, 0x2c, 0xac, 0x6c, 0xec, 0x1c, 0x9c]

  lemma CcittTrace()
    ensures Traces(0x1021, DIGITS, [0xffff, 0xc782, 0x3dba, 0x5bce, 0x5349, 0x4560, 0x2ef4, 0x7718, 0xa12b, 0x29b1])
  {
    EightSteps(0x1021, Xor(0xffff, High(0x31)));
    EightSteps(0x1021, Xor(0xc782, High(0x32)));
    EightSteps(0x1021, Xor(0x3dba, High(0x33)));
    EightSteps(0x1021, Xor(0x5bce, High(0x34)));
    EightSteps(0x1021, Xor(0x5349, High(0x35)));
    EightSteps(0x1021, Xor(0x4560, High(0x36)));
    EightSteps(0x1021, Xor(0x2ef4, High(0x37)));
    EightSteps(0x1021, Xor(0x7718, High(0x38)));
    EightSteps(0x1021, Xor(0xa12b, High(0x39)));
    assert SlowByte(0x1021, 0xffff, 0x31) == 0xc782;
    assert SlowByte(0x1021, 0xc782, 0x32) == 0x3dba;
    assert SlowByte(0x1021, 0x3dba, 0x33) == 0x5bce;
    assert SlowByte(0x1021, 0x5bce, 0x34) == 0x5349;
    assert SlowByte(0x1021, 0x5349, 0x35) == 0x4560;
    assert SlowByte(0x1021, 0x4560, 0x36) == 0x2ef4;
    assert SlowByte(0x1021, 0x2ef4, 0x37) == 0x7718;
    assert SlowByte(0x1021, 0x7718, 0x38) == 0xa12b;
    assert SlowByte(0x1021, 0xa12b, 0x39) == 0x29b1;
    hide Steps, SlowByte;
  }

  /** CHECK_VALUE for CCITT: the CRC of the digits 1 to 9. */
  lemma CheckValue()
    ensures Crc(CCITT, DIGITS) == 0x29b1
  {
    hide SlowByte;
    CcittTrace();
    TraceEnds(0x1021, DIGITS, [0xffff, 0xc782, 0x3dba, 0x5bce, 0x5349, 0x4560, 0x2ef4, 0x7718, 0xa12b, 0x29b1]);
    CcittIsRemainder(DIGITS);
  }

  lemma Crc16Trace()
    ensures Traces(0x8005, REFLECTED_DIGITS,
                   [0x0000, 0x832b, 0x29a2, 0x205d, 0x5d28, 0xaa25, 0x2794, 0x16b9, 0xb93c, 0xbcdd])
  {
    EightSteps(0x8005, Xor(0x0000, High(0x8c)));
    EightSteps(0x8005, Xor(0x832b, High(0x4c)));
    EightSteps(0x8005, Xor(0x29a2, High(0xcc)));
    EightSteps(0x8005, Xor(0x205d, High(0x2c)));
    EightSteps(0x8005, Xor(0x5d28, High(0xac)));
    EightSteps(0x8005, Xor(0xaa25, High(0x6c)));
    EightSteps(0x8005, Xor(0x2794, High(0xec)));
    EightSteps(0x8005, Xor(0x16b9, High(0x1c)));
    EightSteps(0x8005, Xor(0xb93c, High(0x9c)));
    assert SlowByte(0x8005, 0x0000, 0x8c) == 0x832b;
    assert SlowByte(0x8005, 0x832b, 0x4c) == 0x29a2;
    assert SlowByte(0x8005, 0x29a2, 0xcc) == 0x205d;
    assert SlowByte(0x8005, 0x205d, 0x2c) == 0x5d28;
    assert SlowByte(0x8005, 0x5d28, 0xac) == 0xaa25;
    assert SlowByte(0x8005, 0xaa25, 0x6c) == 0x2794;
    assert SlowByte(0x8005, 0x2794, 0xec) == 0x16b9;
    assert SlowByte(0x8005, 0x16b9, 0x1c) == 0xb93c;
    assert SlowByte(0x8005, 0xb93c, 0x9c) == 0xbcdd;
    hide Steps, SlowByte;
  }

  lemma LastReflected()
    ensures Final(CRC16, 0xbcdd) == 0xbb3d
  {
    assert Reflected(0xbc, 8) == 0x3d;
    assert Reflected(0x5e6, 11) == 0x33d;
    assert Reflected(0x2f37, 14) == 0x3b3d;
    assert Reflected(0xbcdd, 16) == 0xbb3d;
    assert Xor(0xbb3d, 0) == 0xbb3d;
    hide Reflected, Xor;
  }

  lemma DigitsReflected()
    ensures Data(CRC16, DIGITS) == REFLECTED_DIGITS
  {
  }

  /** CHECK_VALUE for CRC-16, with its bytes and its remainder reflected. */
  lemma CheckValue16()
    ensures Crc(CRC16, DIGITS) == 0xbb3d
  {
    hide SlowByte;
    Crc16Trace();
    TraceEnds(0x8005, REFLECTED_DIGITS,
              [0x0000, 0x832b, 0x29a2, 0x205d, 0x5d28, 0xaa25, 0x2794, 0x16b9, 0xb93c, 0xbcdd]);
    DigitsReflected();
    LastReflected();
    hide Final, Remainder, Data;
  }
}
