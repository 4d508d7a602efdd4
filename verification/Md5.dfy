// src/common/vscpmd5.c: MD5 with its 64 operations written out, fed by any number of calls.

module Md5 {
  import opened BlockStream

  type word = bv32

  // ----- Functions and constants of RFC 1321, section 3.4

  function F(x: word, y: word, z: word): word { (x & y) | (!x & z) }
  function G(x: word, y: word, z: word): word { (x & z) | (y & !z) }
  function H(x: word, y: word, z: word): word { x ^ y ^ z }
  function I(x: word, y: word, z: word): word { y ^ (x | !z) }

  function RotateLeft(x: word, s: int): word {
    match s
    case 4 => (x << 4) | (x >> 28) case 5 => (x << 5) | (x >> 27) case 6 => (x << 6) | (x >> 26)
    case 7 => (x << 7) | (x >> 25) case 9 => (x << 9) | (x >> 23) case 10 => (x << 10) | (x >> 22)
    case 11 => (x << 11) | (x >> 21) case 12 => (x << 12) | (x >> 20) case 14 => (x << 14) | (x >> 18)
    case 15 => (x << 15) | (x >> 17) case 16 => (x << 16) | (x >> 16) case 17 => (x << 17) | (x >> 15)
    case 20 => (x << 20) | (x >> 12) case 21 => (x << 21) | (x >> 11) case 22 => (x << 22) | (x >> 10)
    case 23 => (x << 23) | (x >> 9)
    case _ => x
  }

  /** The operation that the source calls SET. */
  function Set(f: word, a: word, b: word, x: word, s: int, t: word): word {
    RotateLeft(a + f + x + t, s) + b
  }

  function Sum(x: word, y: word): word { x + y }

  /** The integer part of 4294967296 times abs(sin(i + 1)). */
  function T(i: int): word {
    match i
    case 0 => 0xd76aa478 case 1 => 0xe8c7b756 case 2 => 0x242070db case 3 => 0xc1bdceee
    case 4 => 0xf57c0faf case 5 => 0x4787c62a case 6 => 0xa8304613 case 7 => 0xfd469501
    case 8 => 0x698098d8 case 9 => 0x8b44f7af case 10 => 0xffff5bb1 case 11 => 0x895cd7be
    case 12 => 0x6b901122 case 13 => 0xfd987193 case 14 => 0xa679438e case 15 => 0x49b40821
    case 16 => 0xf61e2562 case 17 => 0xc040b340 case 18 => 0x265e5a51 case 19 => 0xe9b6c7aa
    case 20 => 0xd62f105d case 21 => 0x02441453 case 22 => 0xd8a1e681 case 23 => 0xe7d3fbc8
    case 24 => 0x21e1cde6 case 25 => 0xc33707d6 case 26 => 0xf4d50d87 case 27 => 0x455a14ed
    case 28 => 0xa9e3e905 case 29 => 0xfcefa3f8 case 30 => 0x676f02d9 case 31 => 0x8d2a4c8a
    case 32 => 0xfffa3942 case 33 => 0x8771f681 case 34 => 0x6d9d6122 case 35 => 0xfde5380c
    case 36 => 0xa4beea44 case 37 => 0x4bdecfa9 case 38 => 0xf6bb4b60 case 39 => 0xbebfbc70
    case 40 => 0x289b7ec6 case 41 => 0xeaa127fa case 42 => 0xd4ef3085 case 43 => 0x04881d05
    case 44 => 0xd9d4d039 case 45 => 0xe6db99e5 case 46 => 0x1fa27cf8 case 47 => 0xc4ac5665
    case 48 => 0xf4292244 case 49 => 0x432aff97 case 50 => 0xab9423a7 case 51 => 0xfc93a039
    case 52 => 0x655b59c3 case 53 => 0x8f0ccc92 case 54 => 0xffeff47d case 55 => 0x85845dd1
    case 56 => 0x6fa87e4f case 57 => 0xfe2ce6e0 case 58 => 0xa3014314 case 59 => 0x4e0811a1
    case 60 => 0xf7537e82 case 61 => 0xbd3af235 case 62 => 0x2ad7d2bb case 63 => 0xeb86d391
    case _ => 0
  }

  function LittleEndian(a: bv8, b: bv8, c: bv8, d: bv8): word {
    (a as word) + ((b as word) << 8) + ((c as word) << 16) + ((d as word) << 24)
  }

  function ByteAt(w: word, k: int): bv8
    requires 0 <= k < 4
  {
    match k
    case 0 => (w & 0xff) as bv8
    case 1 => ((w >> 8) & 0xff) as bv8
    case 2 => ((w >> 16) & 0xff) as bv8
    case 3 => (w >> 24) as bv8
  }

  // ----- One block, operation by operation

  datatype Vars = Vars(a: word, b: word, c: word, d: word)

  const INITIAL := Vars(0x67452301, 0xefcdab89, 0x98badcfe, 0x10325476)

  function Auxiliary(i: int, x: word, y: word, z: word): word {
    if i < 16 then F(x, y, z) else if i < 32 then G(x, y, z) else if i < 48 then H(x, y, z) else I(x, y, z)
  }

  /** The word of the block that operation i takes. */
  function Index(i: nat): (k: nat)
    ensures k < 16
  {
    if i < 16 then i else if i < 32 then (5 * i + 1) % 16 else if i < 48 then (3 * i + 5) % 16 else 7 * i % 16
  }

  function Shift(i: nat): int {
    var j := i % 4;
    if i < 16 then (if j == 0 then 7 else if j == 1 then 12 else if j == 2 then 17 else 22)
    else if i < 32 then (if j == 0 then 5 else if j == 1 then 9 else if j == 2 then 14 else 20)
    else if i < 48 then (if j == 0 then 4 else if j == 1 then 11 else if j == 2 then 16 else 23)
    else (if j == 0 then 6 else if j == 1 then 10 else if j == 2 then 15 else 21)
  }

  /** Operation i, after which the four registers change places. */
  function Operation(i: nat, v: Vars, x: seq<word>): Vars
    requires |x| == 16
  {
    Vars(v.d, Set(Auxiliary(i, v.b, v.c, v.d), v.a, v.b, x[Index(i)], Shift(i), T(i)), v.b, v.c)
  }

  function Steps(v: Vars, x: seq<word>, n: nat): Vars
    requires |x| == 16
  {
    if n == 0 then v else Operation(n - 1, Steps(v, x, n - 1), x)
  }

  function Words(m: Block, n: nat): (x: seq<word>)
    requires n <= 16
    ensures |x| == n
  {
    if n == 0 then [] else Words(m, n - 1) + [LittleEndian(m[4 * n - 4], m[4 * n - 3], m[4 * n - 2], m[4 * n - 1])]
  }

  function Compress(h: Vars, m: Block): Vars {
    var v := Steps(h, Words(m, 16), 64);
    Vars(Sum(h.a, v.a), Sum(h.b, v.b), Sum(h.c, v.c), Sum(h.d, v.d))
  }

  // ----- The operations written out

  /** Four operations bring the registers back to their places. */
  lemma Quartet(v: Vars, x: seq<word>, n: nat)
    requires |x| == 16
    ensures var r := Steps(v, x, n);
            var a := Set(Auxiliary(n, r.b, r.c, r.d), r.a, r.b, x[Index(n)], Shift(n), T(n));
            var d := Set(Auxiliary(n + 1, a, r.b, r.c), r.d, a, x[Index(n + 1)], Shift(n + 1), T(n + 1));
            var c := Set(Auxiliary(n + 2, d, a, r.b), r.c, d, x[Index(n + 2)], Shift(n + 2), T(n + 2));
            var b := Set(Auxiliary(n + 3, c, d, a), r.b, c, x[Index(n + 3)], Shift(n + 3), T(n + 3));
            Steps(v, x, n + 4) == Vars(a, b, c, d)
  {
    hide Set, T, Auxiliary, Index, Shift;
    var r := Steps(v, x, n);
    var r1 := Steps(v, x, n + 1);
    assert r1 == Operation(n, r, x);
    var r2 := Steps(v, x, n + 2);
    assert r2 == Operation(n + 1, r1, x);
    var r3 := Steps(v, x, n + 3);
    assert r3 == Operation(n + 2, r2, x);
    assert Steps(v, x, n + 4) == Operation(n + 3, r3, x);
  }

  lemma QuartetF(v: Vars, x: seq<word>, n: nat)
    requires |x| == 16 && n % 4 == 0 && 0 <= n < 16
    ensures var r := Steps(v, x, n);
            var a := Set(F(r.b, r.c, r.d), r.a, r.b, x[Index(n)], 7, T(n));
            var d := Set(F(a, r.b, r.c), r.d, a, x[Index(n + 1)], 12, T(n + 1));
            var c := Set(F(d, a, r.b), r.c, d, x[Index(n + 2)], 17, T(n + 2));
            var b := Set(F(c, d, a), r.b, c, x[Index(n + 3)], 22, T(n + 3));
            Steps(v, x, n + 4) == Vars(a, b, c, d)
  {
    hide Set, T, Steps, Operation, F, G, H, I, Index;
    Quartet(v, x, n);
  }

  lemma QuartetG(v: Vars, x: seq<word>, n: nat)
    requires |x| == 16 && n % 4 == 0 && 16 <= n < 32
    ensures var r := Steps(v, x, n);
            var a := Set(G(r.b, r.c, r.d), r.a, r.b, x[Index(n)], 5, T(n));
            var d := Set(G(a, r.b, r.c), r.d, a, x[Index(n + 1)], 9, T(n + 1));
            var c := Set(G(d, a, r.b), r.c, d, x[Index(n + 2)], 14, T(n + 2));
            var b := Set(G(c, d, a), r.b, c, x[Index(n + 3)], 20, T(n + 3));
            Steps(v, x, n + 4) == Vars(a, b, c, d)
  {
    hide Set, T, Steps, Operation, F, G, H, I, Index;
    Quartet(v, x, n);
  }

  lemma QuartetH(v: Vars, x: seq<word>, n: nat)
    requires |x| == 16 && n % 4 == 0 && 32 <= n < 48
    ensures var r := Steps(v, x, n);
            var a := Set(H(r.b, r.c, r.d), r.a, r.b, x[Index(n)], 4, T(n));
            var d := Set(H(a, r.b, r.c), r.d, a, x[Index(n + 1)], 11, T(n + 1));
            var c := Set(H(d, a, r.b), r.c, d, x[Index(n + 2)], 16, T(n + 2));
            var b := Set(H(c, d, a), r.b, c, x[Index(n + 3)], 23, T(n + 3));
            Steps(v, x, n + 4) == Vars(a, b, c, d)
  {
    hide Set, T, Steps, Operation, F, G, H, I, Index;
    Quartet(v, x, n);
  }

  lemma QuartetI(v: Vars, x: seq<word>, n: nat)
    requires |x| == 16 && n % 4 == 0 && 48 <= n < 64
    ensures var r := Steps(v, x, n);
            var a := Set(I(r.b, r.c, r.d), r.a, r.b, x[Index(n)], 6, T(n));
            var d := Set(I(a, r.b, r.c), r.d, a, x[Index(n + 1)], 10, T(n + 1));
            var c := Set(I(d, a, r.b), r.c, d, x[Index(n + 2)], 15, T(n + 2));
            var b := Set(I(c, d, a), r.b, c, x[Index(n + 3)], 21, T(n + 3));
            Steps(v, x, n + 4) == Vars(a, b, c, d)
  {
    hide Set, T, Steps, Operation, F, G, H, I, Index;
    Quartet(v, x, n);
  }

  lemma IndicesF()
    ensures Index(0) == 0 && Index(1) == 1 && Index(2) == 2 && Index(3) == 3
    ensures Index(4) == 4 && Index(5) == 5 && Index(6) == 6 && Index(7) == 7
    ensures Index(8) == 8 && Index(9) == 9 && Index(10) == 10 && Index(11) == 11
    ensures Index(12) == 12 && Index(13) == 13 && Index(14) == 14 && Index(15) == 15
  {
  }

  lemma IndicesG()
    ensures Index(16) == 1 && Index(17) == 6 && Index(18) == 11 && Index(19) == 0
    ensures Index(20) == 5 && Index(21) == 10 && Index(22) == 15 && Index(23) == 4
    ensures Index(24) == 9 && Index(25) == 14 && Index(26) == 3 && Index(27) == 8
    ensures Index(28) == 13 && Index(29) == 2 && Index(30) == 7 && Index(31) == 12
  {
  }

  lemma IndicesH()
    ensures Index(32) == 5 && Index(33) == 8 && Index(34) == 11 && Index(35) == 14
    ensures Index(36) == 1 && Index(37) == 4 && Index(38) == 7 && Index(39) == 10
    ensures Index(40) == 13 && Index(41) == 0 && Index(42) == 3 && Index(43) == 6
    ensures Index(44) == 9 && Index(45) == 12 && Index(46) == 15 && Index(47) == 2
  {
  }

  lemma IndicesI()
    ensures Index(48) == 0 && Index(49) == 7 && Index(50) == 14 && Index(51) == 5
    ensures Index(52) == 12 && Index(53) == 3 && Index(54) == 10 && Index(55) == 1
    ensures Index(56) == 8 && Index(57) == 15 && Index(58) == 6 && Index(59) == 13
    ensures Index(60) == 4 && Index(61) == 11 && Index(62) == 2 && Index(63) == 9
  {
  }

  method Round1(ghost v: Vars, x: seq<word>, r: Vars) returns (r': Vars)
    requires |x| == 16 && r == Steps(v, x, 0)
    ensures r' == Steps(v, x, 16)
  {
    hide *;
    IndicesF();
    var a, b, c, d := r.a, r.b, r.c, r.d;
    a := Set(F(b, c, d), a, b, x[0], 7, T(0));
    d := Set(F(a, b, c), d, a, x[1], 12, T(1));
    c := Set(F(d, a, b), c, d, x[2], 17, T(2));
    b := Set(F(c, d, a), b, c, x[3], 22, T(3));
    assert Vars(a, b, c, d) == Steps(v, x, 4) by { QuartetF(v, x, 0); }
    a := Set(F(b, c, d), a, b, x[4], 7, T(4));
    d := Set(F(a, b, c), d, a, x[5], 12, T(5));
    c := Set(F(d, a, b), c, d, x[6], 17, T(6));
    b := Set(F(c, d, a), b, c, x[7], 22, T(7));
    assert Vars(a, b, c, d) == Steps(v, x, 8) by { QuartetF(v, x, 4); }
    a := Set(F(b, c, d), a, b, x[8], 7, T(8));
    d := Set(F(a, b, c), d, a, x[9], 12, T(9));
    c := Set(F(d, a, b), c, d, x[10], 17, T(10));
    b := Set(F(c, d, a), b, c, x[11], 22, T(11));
    assert Vars(a, b, c, d) == Steps(v, x, 12) by { QuartetF(v, x, 8); }
    a := Set(F(b, c, d), a, b, x[12], 7, T(12));
    d := Set(F(a, b, c), d, a, x[13], 12, T(13));
    c := Set(F(d, a, b), c, d, x[14], 17, T(14));
    b := Set(F(c, d, a), b, c, x[15], 22, T(15));
    assert Vars(a, b, c, d) == Steps(v, x, 16) by { QuartetF(v, x, 12); }
    r' := Vars(a, b, c, d);
  }

  method Round2(ghost v: Vars, x: seq<word>, r: Vars) returns (r': Vars)
    requires |x| == 16 && r == Steps(v, x, 16)
    ensures r' == Steps(v, x, 32)
  {
    hide *;
    IndicesG();
    var a, b, c, d := r.a, r.b, r.c, r.d;
    a := Set(G(b, c, d), a, b, x[1], 5, T(16));
    d := Set(G(a, b, c), d, a, x[6], 9, T(17));
    c := Set(G(d, a, b), c, d, x[11], 14, T(18));
    b := Set(G(c, d, a), b, c, x[0], 20, T(19));
    assert Vars(a, b, c, d) == Steps(v, x, 20) by { QuartetG(v, x, 16); }
    a := Set(G(b, c, d), a, b, x[5], 5, T(20));
    d := Set(G(a, b, c), d, a, x[10], 9, T(21));
    c := Set(G(d, a, b), c, d, x[15], 14, T(22));
    b := Set(G(c, d, a), b, c, x[4], 20, T(23));
    assert Vars(a, b, c, d) == Steps(v, x, 24) by { QuartetG(v, x, 20); }
    a := Set(G(b, c, d), a, b, x[9], 5, T(24));
    d := Set(G(a, b, c), d, a, x[14], 9, T(25));
    c := Set(G(d, a, b), c, d, x[3], 14, T(26));
    b := Set(G(c, d, a), b, c, x[8], 20, T(27));
    assert Vars(a, b, c, d) == Steps(v, x, 28) by { QuartetG(v, x, 24); }
    a := Set(G(b, c, d), a, b, x[13], 5, T(28));
    d := Set(G(a, b, c), d, a, x[2], 9, T(29));
    c := Set(G(d, a, b), c, d, x[7], 14, T(30));
    b := Set(G(c, d, a), b, c, x[12], 20, T(31));
    assert Vars(a, b, c, d) == Steps(v, x, 32) by { QuartetG(v, x, 28); }
    r' := Vars(a, b, c, d);
  }

  method Round3(ghost v: Vars, x: seq<word>, r: Vars) returns (r': Vars)
    requires |x| == 16 && r == Steps(v, x, 32)
    ensures r' == Steps(v, x, 48)
  {
    hide *;
    IndicesH();
    var a, b, c, d := r.a, r.b, r.c, r.d;
    a := Set(H(b, c, d), a, b, x[5], 4, T(32));
    d := Set(H(a, b, c), d, a, x[8], 11, T(33));
    c := Set(H(d, a, b), c, d, x[11], 16, T(34));
    b := Set(H(c, d, a), b, c, x[14], 23, T(35));
    assert Vars(a, b, c, d) == Steps(v, x, 36) by { QuartetH(v, x, 32); }
    a := Set(H(b, c, d), a, b, x[1], 4, T(36));
    d := Set(H(a, b, c), d, a, x[4], 11, T(37));
    c := Set(H(d, a, b), c, d, x[7], 16, T(38));
    b := Set(H(c, d, a), b, c, x[10], 23, T(39));
    assert Vars(a, b, c, d) == Steps(v, x, 40) by { QuartetH(v, x, 36); }
    a := Set(H(b, c, d), a, b, x[13], 4, T(40));
    d := Set(H(a, b, c), d, a, x[0], 11, T(41));
    c := Set(H(d, a, b), c, d, x[3], 16, T(42));
    b := Set(H(c, d, a), b, c, x[6], 23, T(43));
    assert Vars(a, b, c, d) == Steps(v, x, 44) by { QuartetH(v, x, 40); }
    a := Set(H(b, c, d), a, b, x[9], 4, T(44));
    d := Set(H(a, b, c), d, a, x[12], 11, T(45));
    c := Set(H(d, a, b), c, d, x[15], 16, T(46));
    b := Set(H(c, d, a), b, c, x[2], 23, T(47));
    assert Vars(a, b, c, d) == Steps(v, x, 48) by { QuartetH(v, x, 44); }
    r' := Vars(a, b, c, d);
  }

  method Round4(ghost v: Vars, x: seq<word>, r: Vars) returns (r': Vars)
    requires |x| == 16 && r == Steps(v, x, 48)
    ensures r' == Steps(v, x, 64)
  {
    hide *;
    IndicesI();
    var a, b, c, d := r.a, r.b, r.c, r.d;
    a := Set(I(b, c, d), a, b, x[0], 6, T(48));
    d := Set(I(a, b, c), d, a, x[7], 10, T(49));
    c := Set(I(d, a, b), c, d, x[14], 15, T(50));
    b := Set(I(c, d, a), b, c, x[5], 21, T(51));
    assert Vars(a, b, c, d) == Steps(v, x, 52) by { QuartetI(v, x, 48); }
    a := Set(I(b, c, d), a, b, x[12], 6, T(52));
    d := Set(I(a, b, c), d, a, x[3], 10, T(53));
    c := Set(I(d, a, b), c, d, x[10], 15, T(54));
    b := Set(I(c, d, a), b, c, x[1], 21, T(55));
    assert Vars(a, b, c, d) == Steps(v, x, 56) by { QuartetI(v, x, 52); }
    a := Set(I(b, c, d), a, b, x[8], 6, T(56));
    d := Set(I(a, b, c), d, a, x[15], 10, T(57));
    c := Set(I(d, a, b), c, d, x[6], 15, T(58));
    b := Set(I(c, d, a), b, c, x[13], 21, T(59));
    assert Vars(a, b, c, d) == Steps(v, x, 60) by { QuartetI(v, x, 56); }
    a := Set(I(b, c, d), a, b, x[4], 6, T(60));
    d := Set(I(a, b, c), d, a, x[11], 10, T(61));
    c := Set(I(d, a, b), c, d, x[2], 15, T(62));
    b := Set(I(c, d, a), b, c, x[9], 21, T(63));
    assert Vars(a, b, c, d) == Steps(v, x, 64) by { QuartetI(v, x, 60); }
    r' := Vars(a, b, c, d);
  }

  // ----- The digest of a message

  /** The number of bits as eight bytes, the lowest first. */
  function LengthBytes(bits: nat): (s: seq<bv8>)
    ensures |s| == 8
  {
    seq(8, (i: int) requires 0 <= i < 8 => Octet(bits, i))
  }

  function Hash(message: seq<bv8>): Vars {
    Absorb(Compress, INITIAL, Padded(message, LengthBytes(8 * |message| % 0x1_0000_0000_0000_0000)))
  }

  function WordBytes(w: word): (s: seq<bv8>)
    ensures |s| == 4
  {
    [ByteAt(w, 0), ByteAt(w, 1), ByteAt(w, 2), ByteAt(w, 3)]
  }

  function Digest(message: seq<bv8>): (s: seq<bv8>)
    ensures |s| == 16
  {
    var h := Hash(message);
    WordBytes(h.a) + WordBytes(h.b) + WordBytes(h.c) + WordBytes(h.d)
  }

  // ----- The two words of the bit count

  const WORD: nat := 0x1_0000_0000

  /** The two words count the bits of length bytes. */
  ghost predicate Counts(count0: nat, count1: nat, length: nat) {
    count0 < WORD && count1 < WORD && count1 * WORD + count0 == 8 * length % (WORD * WORD)
  }

  /** Adding the low words carries exactly when the sum is below what was added. */
  lemma CarryTest(count0: nat, nbits: nat)
    requires count0 < WORD && nbits < WORD
    ensures (count0 + nbits) % WORD < nbits <==> count0 + nbits >= WORD
  {
  }

  /** The new low word, and the new high word before the carry. */
  lemma CountAdds(count0: nat, count1: nat, length: nat, nbytes: nat)
    requires Counts(count0, count1, length)
    ensures var nbits := 8 * nbytes % WORD; var low := (count0 + nbits) % WORD;
            Counts(low, ((count1 + nbytes / 0x2000_0000 % WORD) % WORD + if low < nbits then 1 else 0) % WORD, length +
                   nbytes)
  {
    var nbits := 8 * nbytes % WORD;
    var high := nbytes / 0x2000_0000;
    CarryTest(count0, nbits);
    assert 8 * nbytes == high * WORD + nbits;
    var low := (count0 + nbits) % WORD;
    var carry := if low < nbits then 1 else 0;
    assert count0 + nbits == low + carry * WORD;
    HighWord(count1, high, carry, low);
    SumOfCounts(8 * length, 8 * nbytes);
    assert count1 * WORD + count0 + 8 * nbytes == (count1 + high + carry) * WORD + low;
  }

  lemma HighWord(count1: nat, high: nat, carry: nat, low: nat)
    requires low < WORD
    ensures ((count1 + high % WORD) % WORD + carry) % WORD * WORD + low ==
            ((count1 + high + carry) * WORD + low) % (WORD * WORD)
  {
    var h := count1 + high + carry;
    assert ((count1 + high % WORD) % WORD + carry) % WORD == h % WORD;
    assert h * WORD + low == h / WORD * (WORD * WORD) + (h % WORD * WORD + low);
  }

  lemma SumOfCounts(a: nat, b: nat)
    ensures (a % (WORD * WORD) + b) % (WORD * WORD) == (a + b) % (WORD * WORD)
  {
  }

  /** The place in the block that the low word gives. */
  lemma Offset(count0: nat, count1: nat, length: nat)
    requires Counts(count0, count1, length)
    ensures count0 / 8 % 64 == length % 64
  {
    var q := 8 * length / (WORD * WORD);
    assert 8 * length == q * (WORD * WORD) + count1 * WORD + count0;
    OffsetOf(count0, length, q * 0x80_0000 * WORD + count1 * 0x80_0000);
  }

  lemma OffsetOf(count0: int, length: int, k: int)
    requires 8 * length == 512 * k + count0
    ensures count0 / 8 % 64 == length % 64
  {
    assert count0 / 8 == length - 64 * k;
  }

  /** Byte i of the length is byte i mod 4 of a word of the count. */
  lemma LengthByte(count0: nat, count1: nat, i: nat)
    requires count0 < WORD && count1 < WORD && i < 8
    ensures Octet(count1 * WORD + count0, i) == Octet(if i / 4 == 0 then count0 else count1, i % 4)
  {
    if i < 4 {
      LowByte(count0, count1, i);
    } else {
      HighByte(count0, count1, i - 4);
    }
  }

  lemma LowByte(count0: nat, count1: nat, i: nat)
    requires count0 < WORD && count1 < WORD && i < 4
    ensures Octet(count1 * WORD + count0, i) == Octet(count0, i)
  {
    var n := count1 * WORD + count0;
    match i
    case 0 => assert n == 256 * (count1 * 0x100_0000) + count0; MultipleOf256(count1 * 0x100_0000, count0);
    case 1 => assert n / 0x100 == 256 * (count1 * 0x1_0000) + count0 / 0x100;
    MultipleOf256(count1 * 0x1_0000, count0 / 0x100);
    case 2 => assert n / 0x1_0000 == 256 * (count1 * 0x100) + count0 / 0x1_0000;
    MultipleOf256(count1 * 0x100, count0 / 0x1_0000);
    case 3 => assert n / 0x100_0000 == 256 * count1 + count0 / 0x100_0000; MultipleOf256(count1, count0 / 0x100_0000);
  }

  lemma MultipleOf256(a: nat, b: nat)
    ensures (256 * a + b) % 256 == b % 256
  {
  }

  lemma HighByte(count0: nat, count1: nat, i: nat)
    requires count0 < WORD && count1 < WORD && i < 4
    ensures Octet(count1 * WORD + count0, i + 4) == Octet(count1, i)
  {
    var n := count1 * WORD + count0;
    match i
    case 0 => assert n / 0x1_0000_0000 == count1;
    case 1 => assert n / 0x100_0000_0000 == count1 / 0x100;
    case 2 => assert n / 0x1_0000_0000_0000 == count1 / 0x1_0000;
    case 3 => assert n / 0x100_0000_0000_0000 == count1 / 0x100_0000;
  }

  // ----- The state

  /** What is left of a state and a tail when bytes have been taken. */
  ghost predicate FedBy(state: Vars, tail: seq<bv8>, bytes: seq<bv8>) {
    state == Absorb(Compress, INITIAL, Whole(bytes)) && tail == Tail(bytes)
  }

  lemma FedTail(state: Vars, tail: seq<bv8>, bytes: seq<bv8>, more: seq<bv8>)
    requires FedBy(state, tail, bytes) && |bytes| % 64 + |more| < 64
    ensures FedBy(state, tail + more, bytes + more) && |bytes + more| % 64 == |bytes| % 64 + |more|
  {
    hide Compress, Absorb;
    MoreBytes(bytes, more);
  }

  lemma FedBlock(state: Vars, tail: seq<bv8>, bytes: seq<bv8>, more: seq<bv8>)
    requires FedBy(state, tail, bytes) && |bytes| % 64 + |more| == 64
    ensures |tail + more| == 64 && FedBy(Compress(state, tail + more), [], bytes + more) && |bytes + more| % 64 == 0
  {
    hide Compress, Absorb;
    MoreBytes(bytes, more);
    AbsorbOne(Compress, INITIAL, Whole(bytes), tail + more);
  }

  /** How many bytes of the pad bring the message to 56 bytes after a block. */
  function PadCount(count0: nat, ghost count1: nat, ghost length: nat): (n: nat)
    requires Counts(count0, count1, length)
    ensures 1 <= n <= 64 && (n - 1) % 64 == (55 - length) % 64
  {
    Offset(count0, count1, length);
    SameDistance(count0 / 8, length);
    (55 - count0 / 8) % 64 + 1
  }

  lemma SameDistance(a: int, b: int)
    requires a % 64 == b % 64
    ensures (55 - a) % 64 == (55 - b) % 64
  {
    assert 55 - a == 55 - b + 64 * (b / 64 - a / 64);
    MultipleOf64(55 - b, b / 64 - a / 64);
  }

  lemma MultipleOf64(x: int, k: int)
    ensures (x + 64 * k) % 64 == x % 64
  {
  }

  /** The constant array pad of the source. */
  method Pad(ghost length: nat, ghost n: nat) returns (pad: array<bv8>)
    requires 1 <= n <= 64 && (n - 1) % 64 == (55 - length) % 64
    ensures fresh(pad) && pad.Length == 64 && pad[..n] == [0x80] + Zeros(Gap(length))
  {
    hide Zeros, Gap;
    pad := new bv8[64](i => if i == 0 then 0x80 else 0);
    PadBytes(pad[..], length, n);
    assert pad[..][..n] == pad[..n];
  }

  lemma NothingFed()
    ensures FedBy(INITIAL, [], []) && Counts(0, 0, 0)
  {
  }

  /** The 64 bytes from p on as words, the first byte lowest. */
  method LoadWords(data: array<bv8>, p: nat) returns (x: seq<word>)
    requires p + 64 <= data.Length
    ensures |x| == 16 && x == Words(data[p..p + 64], 16)
  {
    hide LittleEndian;
    ghost var block: Block := data[p..p + 64];
    var xbuf := new word[16];
    var i := 0;
    while i < 16
      invariant 0 <= i <= 16 && xbuf[..i] == Words(block, i)
    {
      xbuf[i] := LittleEndian(data[p + 4 * i], data[p + 4 * i + 1], data[p + 4 * i + 2], data[p + 4 * i + 3]);
      i := i + 1;
    }
    x := xbuf[..];
  }

  class Md5State {
    var count0: nat
    var count1: nat
    const abcd: array<word>
    const buf: array<bv8>
    ghost var message: seq<bv8>

    ghost predicate Shaped() {
      abcd.Length == 4 && buf.Length == 64
    }

    function State(): Vars
      requires abcd.Length == 4
      reads abcd
    {
      Vars(abcd[0], abcd[1], abcd[2], abcd[3])
    }

    /** abcd has absorbed the whole blocks of bytes and buf holds their tail. */
    ghost predicate Fed(bytes: seq<bv8>)
      reads this, abcd, buf
    {
      Shaped() && FedBy(State(), buf[..|bytes| % 64], bytes)
    }

    ghost predicate Valid()
      reads this, abcd, buf
    {
      Fed(message) && Counts(count0, count1, |message|)
    }

    constructor ()
      ensures Valid() && message == [] && fresh(abcd) && fresh(buf)
    {
      abcd := new word[4];
      buf := new bv8[64];
      count0, count1 := 0, 0;
      message := [];
      new;
      hide Compress, Absorb, Counts, FedBy;
      abcd[0], abcd[1], abcd[2], abcd[3] := 0x67452301, 0xefcdab89, 0x98badcfe, 0x10325476;
      NothingFed();
      assert buf[..0] == [];
    }

    /** Compresses the 64 bytes of data from p on. */
    method Process(data: array<bv8>, p: nat)
      requires Shaped() && p + 64 <= data.Length
      modifies abcd
      ensures State() == Compress(old(State()), old(data[p..p + 64]))
    {
      hide Sum, Steps, Words;
      var x := LoadWords(data, p);
      ghost var v := State();
      StepsNone(v, x);
      var r := Round1(v, x, State());
      r := Round2(v, x, r);
      r := Round3(v, x, r);
      r := Round4(v, x, r);
      abcd[0] := Sum(abcd[0], r.a);
      abcd[1] := Sum(abcd[1], r.b);
      abcd[2] := Sum(abcd[2], r.c);
      abcd[3] := Sum(abcd[3], r.d);
    }

    /** Updates the length of the message. */
    method AddCount(nbytes: nat, ghost length: nat)
      requires Counts(count0, count1, length)
      modifies `count0, `count1
      ensures Counts(count0, count1, length + nbytes)
    {
      CountAdds(count0, count1, length, nbytes);
      hide Counts;
      var nbits := 8 * nbytes % WORD;
      count1 := (count1 + nbytes / 0x2000_0000 % WORD) % WORD;
      count0 := (count0 + nbits) % WORD;
      if count0 < nbits {
        count1 := (count1 + 1) % WORD;
      }
    }

    method Copy(at: nat, data: array<bv8>, p: nat, n: nat)
      requires Shaped() && at + n <= 64 && p + n <= data.Length && data != buf
      modifies buf
      ensures buf[..at + n] == old(buf[..at]) + data[p..p + n]
    {
      forall i | 0 <= i < n {
        buf[at + i] := data[p + i];
      }
    }

    /** Adds nbytes bytes of data to the message. */
    method Append(data: array<bv8>, nbytes: nat)
      requires Valid() && nbytes <= data.Length && data != buf
      modifies this, abcd, buf
      ensures Valid() && message == old(message) + data[..nbytes]
    {
      hide Compress, Counts, FedBy;
      Offset(count0, count1, |message|);
      var offset := count0 / 8 % 64;
      if nbytes <= 0 {
        assert message + data[..0] == message;
        return;
      }
      AddCount(nbytes, |message|);
      message := message + data[..nbytes];
      AppendBlocks(data, nbytes, offset, old(message));
    }

    /** The blocks of Append: the one begun before, the whole ones, and the rest. */
    method AppendBlocks(data: array<bv8>, nbytes: nat, offset: nat, ghost start: seq<bv8>)
      requires Fed(start) && 0 < nbytes <= data.Length && data != buf && offset == |start| % 64
      modifies abcd, buf
      ensures Fed(start + data[..nbytes])
    {
      hide Fed;
      var p, left := 0, nbytes;
      assert start + data[..0] == start;
      if offset != 0 {
        var copy := if offset + nbytes > 64 then 64 - offset else nbytes;
        FillBlock(data, copy, offset, start);
        if offset + copy < 64 {
          return;
        }
        p := copy;
        left := left - copy;
      }
      while left >= 64
        invariant 0 <= p <= nbytes && left == nbytes - p
        invariant (|start| + p) % 64 == 0 && Fed(start + data[..p])
        modifies abcd
      {
        TakeBlock(data, p, start + data[..p]);
        assert start + data[..p + 64] == start + data[..p] + data[p..p + 64];
        p := p + 64;
        left := left - 64;
      }
      assert start + data[..nbytes] == start + data[..p] + data[p..nbytes];
      if left > 0 {
        KeepRest(data, p, left, start + data[..p]);
      }
    }

    /** Bytes for a block that was begun: it is processed when it is full. */
    method FillBlock(data: array<bv8>, copy: nat, offset: nat, ghost start: seq<bv8>)
      requires Fed(start) && offset == |start| % 64 && 0 < copy <= data.Length && offset + copy <= 64 && data != buf
      modifies abcd, buf
      ensures Fed(start + data[..copy])
    {
      hide Compress, FedBy;
      ghost var tail, more := buf[..offset], data[..copy];
      Copy(offset, data, 0, copy);
      assert buf[..offset + copy] == tail + more;
      if offset + copy < 64 {
        FedTail(State(), tail, start, more);
      } else {
        FedBlock(State(), tail, start, more);
        assert buf[0..64] == tail + more;
        Process(buf, 0);
        assert buf[..0] == [];
      }
    }

    method TakeBlock(data: array<bv8>, p: nat, ghost bytes: seq<bv8>)
      requires Fed(bytes) && |bytes| % 64 == 0 && p + 64 <= data.Length
      modifies abcd
      ensures Fed(bytes + data[p..p + 64])
    {
      hide Compress, FedBy;
      ghost var more := data[p..p + 64];
      assert [] + more == more && buf[..0] == [];
      FedBlock(State(), [], bytes, more);
      Process(data, p);
    }

    method KeepRest(data: array<bv8>, p: nat, left: nat, ghost bytes: seq<bv8>)
      requires Fed(bytes) && |bytes| % 64 == 0 && left < 64 && p + left <= data.Length && data != buf
      modifies buf
      ensures Fed(bytes + data[p..p + left])
    {
      hide Compress, FedBy;
      ghost var more := data[p..p + left];
      assert [] + more == more && buf[..0] == [];
      FedTail(State(), [], bytes, more);
      Copy(0, data, p, left);
    }

    /** Pads the message, appends its length, and writes the digest. */
    method Finish(digest: array<bv8>)
      requires Valid() && digest.Length == 16 && digest != buf
      modifies this, abcd, buf, digest
      ensures digest[..] == Digest(old(message))
    {
      hide Fed, Counts, Hash, WordBytes;
      AppendPadding();
      WriteDigest(digest);
    }

    method AppendPadding()
      requires Valid()
      modifies this, abcd, buf
      ensures Shaped() && State() == Hash(old(message))
    {
      hide Fed, Counts, Hash, LengthBytes, Padded;
      ghost var start, bits := message, count1 * WORD + count0;
      var pad, n, data := Trailer();
      PaddedIs(start, pad[..n], data[..8]);
      Append(pad, n);
      Append(data, 8);
      Finished(start, bits);
    }

    /** The padding and the length, saved before the padding counts. */
    method Trailer() returns (pad: array<bv8>, n: nat, data: array<bv8>)
      requires Valid()
      ensures fresh(pad) && fresh(data) && pad != data && n <= pad.Length && data.Length == 8
      ensures pad[..n] == [0x80] + Zeros(Gap(|message|))
      ensures var bits := count1 * WORD + count0;
              bits == 8 * |message| % (WORD * WORD) && data[..8] == LengthBytes(bits)
    {
      hide Fed, Counts, LengthBytes, Zeros, Gap;
      CountIs(count0, count1, |message|);
      data := new bv8[8];
      SaveLength(data);
      n := PadCount(count0, count1, |message|);
      pad := Pad(|message|, n);
    }

    method SaveLength(data: array<bv8>)
      requires count0 < WORD && count1 < WORD && data.Length == 8
      modifies data
      ensures data[..8] == LengthBytes(count1 * WORD + count0)
    {
      hide Octet;
      ghost var bits := count1 * WORD + count0;
      var i := 0;
      while i < 8
        invariant 0 <= i <= 8 && data[..i] == LengthBytes(bits)[..i]
      {
        LengthByte(count0, count1, i);
        data[i] := Octet(if i / 4 == 0 then count0 else count1, i % 4);
        i := i + 1;
      }
    }

    method WriteDigest(digest: array<bv8>)
      requires Shaped() && digest.Length == 16
      modifies digest
      ensures digest[..] == WordBytes(abcd[0]) + WordBytes(abcd[1]) + WordBytes(abcd[2]) + WordBytes(abcd[3])
    {
      hide WordBytes;
      WriteWord(digest, 0, abcd[0]);
      WriteWord(digest, 4, abcd[1]);
      WriteWord(digest, 8, abcd[2]);
      WriteWord(digest, 12, abcd[3]);
      assert digest[..16] == digest[..];
    }

    lemma Finished(start: seq<bv8>, bits: nat)
      requires Valid() && message == Padded(start, LengthBytes(bits)) && bits == 8 * |start| % (WORD * WORD)
      ensures Shaped() && State() == Hash(start)
    {
      hide Compress, Absorb, LengthBytes, Counts, Padded;
      assert Whole(message) == message;
    }
  }

  lemma PaddedIs(message: seq<bv8>, pad: seq<bv8>, length: seq<bv8>)
    requires pad == [0x80] + Zeros(Gap(|message|)) && |length| == 8
    ensures message + pad + length == Padded(message, length)
  {
    hide Zeros, Gap;
    assert message + [0x80] + Zeros(Gap(|message|)) == message + ([0x80] + Zeros(Gap(|message|)));
  }

  lemma CountIs(count0: nat, count1: nat, length: nat)
    requires Counts(count0, count1, length)
    ensures count0 < WORD && count1 < WORD && count1 * WORD + count0 == 8 * length % (WORD * WORD)
  {
  }

  /** The first n bytes of the pad are the one bit and the gap. */
  lemma PadBytes(pad: seq<bv8>, length: nat, n: nat)
    requires |pad| == 64 && pad[0] == 0x80 && (forall i :: 1 <= i < 64 ==> pad[i] == 0) && 1 <= n <= 64
    requires (n - 1) % 64 == (55 - length) % 64
    ensures pad[..n] == [0x80] + Zeros(Gap(length))
  {
    assert Gap(length) == n - 1;
  }

  /** Writes a word, its lowest byte first. */
  method WriteWord(digest: array<bv8>, at: nat, w: word)
    requires at + 4 <= digest.Length
    modifies digest
    ensures digest[..at + 4] == old(digest[..at]) + WordBytes(w)
  {
    digest[at], digest[at + 1], digest[at + 2], digest[at + 3] := ByteAt(w, 0), ByteAt(w, 1), ByteAt(w, 2),
      ByteAt(w, 3);
    hide ByteAt;
  }

  lemma StepsNone(v: Vars, x: seq<word>)
    requires |x| == 16
    ensures Steps(v, x, 0) == v
  {
  }
}
