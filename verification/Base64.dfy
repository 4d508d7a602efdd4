// src/common/vscpbase64.c: base64 of RFC 4648, section 4. A byte is a number below 256.

module Base64 {

  type byte = x: int | 0 <= x < 256

  type sextet = x: int | 0 <= x < 64

  /** The alphabet. */
  function Letter(v: sextet): char {
    match v
    case 0 => 'A' case 1 => 'B' case 2 => 'C' case 3 => 'D' case 4 => 'E' case 5 => 'F' case 6 => 'G' case 7 => 'H'
    case 8 => 'I' case 9 => 'J' case 10 => 'K' case 11 => 'L'
    case 12 => 'M' case 13 => 'N' case 14 => 'O' case 15 => 'P'
    case 16 => 'Q' case 17 => 'R' case 18 => 'S' case 19 => 'T'
    case 20 => 'U' case 21 => 'V' case 22 => 'W' case 23 => 'X'
    case 24 => 'Y' case 25 => 'Z' case 26 => 'a' case 27 => 'b'
    case 28 => 'c' case 29 => 'd' case 30 => 'e' case 31 => 'f'
    case 32 => 'g' case 33 => 'h' case 34 => 'i' case 35 => 'j'
    case 36 => 'k' case 37 => 'l' case 38 => 'm' case 39 => 'n'
    case 40 => 'o' case 41 => 'p' case 42 => 'q' case 43 => 'r'
    case 44 => 's' case 45 => 't' case 46 => 'u' case 47 => 'v'
    case 48 => 'w' case 49 => 'x' case 50 => 'y' case 51 => 'z'
    case 52 => '0' case 53 => '1' case 54 => '2' case 55 => '3'
    case 56 => '4' case 57 => '5' case 58 => '6' case 59 => '7'
    case 60 => '8' case 61 => '9' case 62 => '+' case _ => '/'
  }

  /** The value of a letter; 255 for the padding, 254 for anything else. */
  function Reverse(letter: char): (v: byte)
    ensures v < 64 || v == 254 || v == 255
    ensures v == 255 <==> letter == '='
  {
    if 'A' <= letter <= 'Z' then letter as int - 'A' as int
    else if 'a' <= letter <= 'z' then letter as int - 'a' as int + 26
    else if '0' <= letter <= '9' then letter as int - '0' as int + 52
    else if letter == '+' then 62
    else if letter == '/' then 63
    else if letter == '=' then 255
    else 254
  }

  lemma ReverseLetter(v: sextet)
    ensures Reverse(Letter(v)) == v
  {
  }

  /** A letter of the alphabet has a value, and its value has that letter. */
  lemma LetterReverse(letter: char)
    ensures Reverse(letter) < 64 ==> Letter(Reverse(letter)) == letter
  {
  }

  // ----- Three bytes and four groups of six bits

  function Bits0(a: int): sextet
    requires 0 <= a < 256
  {
    a / 4
  }

  function Bits1(a: int, b: int): sextet
    requires 0 <= a < 256 && 0 <= b < 256
  {
    a % 4 * 16 + b / 16
  }

  function Bits2(b: int, c: int): sextet
    requires 0 <= b < 256 && 0 <= c < 256
  {
    b % 16 * 4 + c / 64
  }

  function Bits3(c: int): sextet {
    c % 64
  }

  function Byte0(a: int, b: int): byte {
    (a * 4 + b / 16) % 256
  }

  function Byte1(b: int, c: int): byte {
    (b * 16 + c / 4) % 256
  }

  function Byte2(c: int, d: int): byte {
    (c * 64 + d) % 256
  }

  lemma BytesBack(x: byte, y: byte, z: byte)
    ensures Byte0(Bits0(x), Bits1(x, y)) == x
    ensures Byte1(Bits1(x, y), Bits2(y, z)) == y
    ensures Byte2(Bits2(y, z), Bits3(z)) == z
  {
    FirstBack(x, y);
    SecondBack(x, y, z);
    ThirdBack(y, z);
    hide Bits0, Bits1, Bits2, Bits3, Byte0, Byte1, Byte2;
  }

  lemma FirstBack(x: byte, y: byte)
    ensures Byte0(Bits0(x), Bits1(x, y)) == x
  {
    assert Bits1(x, y) as int / 16 == x % 4;
  }

  lemma SecondBack(x: byte, y: byte, z: byte)
    ensures Byte1(Bits1(x, y), Bits2(y, z)) == y
  {
    assert Bits2(y, z) as int / 4 == y % 16;
    assert Bits1(x, y) * 16 + y % 16 == 256 * (x % 4) + y;
  }

  lemma ThirdBack(y: byte, z: byte)
    ensures Byte2(Bits2(y, z), Bits3(z)) == z
  {
    assert Bits2(y, z) * 64 + Bits3(z) == 256 * (y % 16) + z;
  }

  /** Three bytes and their four groups are one number of 24 bits. */
  lemma SameNumber(x: byte, y: byte, z: byte)
    ensures 0x40000 * Bits0(x) + 0x1000 * Bits1(x, y) + 0x40 * Bits2(y, z) + Bits3(z) ==
            0x10000 * x + 0x100 * y + z
  {
  }

  lemma SameNumberBack(a: sextet, b: sextet, c: sextet, d: sextet)
    ensures 0x10000 * Byte0(a, b) + 0x100 * Byte1(b, c) + Byte2(c, d) ==
            0x40000 * a + 0x1000 * b + 0x40 * c + d
  {
    assert b == b / 16 * 16 + b % 16 && c == c / 4 * 4 + c % 4;
    assert Byte1(b, c) == b % 16 * 16 + c / 4;
    assert Byte2(c, d) == c % 4 * 64 + d;
  }

  /** The alphabet by the codes of its characters (table 1 of RFC 4648). */
  lemma AlphabetIs(v: sextet)
    ensures Letter(v) as int ==
            if v < 26 then 0x41 + v else if v < 52 then 0x61 + v - 26 else if v < 62 then 0x30 + v - 52
            else if v == 62 then 0x2b else 0x2f
  {
  }

  // ----- Encoding

  function Encoding(s: seq<byte>): (e: string)
    ensures |e| == 4 * ((|s| + 2) / 3)
  {
    if s == [] then ""
    else if |s| == 1 then [Letter(Bits0(s[0])), Letter(Bits1(s[0], 0)), '=', '=']
    else if |s| == 2 then [Letter(Bits0(s[0])), Letter(Bits1(s[0], s[1])), Letter(Bits2(s[1], 0)), '=']
    else Quad(s[0], s[1], s[2]) + Encoding(s[3..])
  }

  function Quad(a: byte, b: byte, c: byte): (q: string)
    ensures |q| == 4
  {
    [Letter(Bits0(a)), Letter(Bits1(a, b)), Letter(Bits2(b, c)), Letter(Bits3(c))]
  }

  /** Vectors of section 10 of RFC 4648: "f", "fo" and "foobar". */
  lemma KnownEncodings()
    ensures Encoding([0x66]) == "Zg=="
    ensures Encoding([0x66, 0x6f]) == "Zm8="
    ensures Encoding([0x66, 0x6f, 0x6f, 0x62, 0x61, 0x72]) == "Zm9vYmFy"
  {
    KnownLetters();
    hide Letter, Bits0, Bits1, Bits2, Bits3;
    var s: seq<byte> := [0x66, 0x6f, 0x6f, 0x62, 0x61, 0x72];
    assert s[3..] == [0x62, 0x61, 0x72] && s[3..][3..] == [];
    assert Encoding([]) == "";
    assert Encoding(s[3..]) == Quad(0x62, 0x61, 0x72) + "" == "YmFy";
    assert Encoding(s) == Quad(0x66, 0x6f, 0x6f) + "YmFy";
  }

  lemma KnownLetters()
    ensures Letter(Bits0(0x66)) == 'Z' && Letter(Bits1(0x66, 0)) == 'g' && Letter(Bits1(0x66, 0x6f)) == 'm'
    ensures Letter(Bits2(0x6f, 0)) == '8' && Letter(Bits2(0x6f, 0x6f)) == '9' && Letter(Bits3(0x6f)) == 'v'
    ensures Letter(Bits0(0x62)) == 'Y' && Letter(Bits1(0x62, 0x61)) == 'm' && Letter(Bits2(0x61, 0x72)) == 'F'
    ensures Letter(Bits3(0x72)) == 'y'
  {
  }

  // ----- Decoding

  /** What the decoder returns, and the bytes it has written. */
  datatype Decoded = Decoded(code: int, bytes: seq<byte>)

  /** The letter at a place, the null character past the end. */
  function At(s: string, i: nat): char {
    if i < |s| then s[i] else '\0'
  }

  /** Decodes from place i on, with out written before. */
  function Decoding(s: string, i: nat, out: seq<byte>): Decoded
    decreases |s| - i
  {
    if i >= |s| then Decoded(-1, out)
    else
      var a, b, c, d := Reverse(At(s, i)), Reverse(At(s, i + 1)), Reverse(At(s, i + 2)), Reverse(At(s, i + 3));
      if a >= 254 then Decoded(i, out)
      else if b >= 254 then Decoded(i + 1, out)
      else if c == 254 then Decoded(i + 2, out)
      else if d == 254 then Decoded(i + 3, out)
      else Decoding(s, i + 4, out + Bytes(a, b, c, d))
  }

  /** The bytes of four values, c and d being 255 for padding. */
  function Bytes(a: byte, b: byte, c: byte, d: byte): seq<byte> {
    if c == 255 then [Byte0(a, b)] else if d == 255 then [Byte0(a, b), Byte1(b, c)]
      else [Byte0(a, b), Byte1(b, c), Byte2(c, d)]
  }

  // ----- Decoding gives back what was encoded

  lemma EqualsIsPadding()
    ensures Reverse('=') == 255
  {
  }

  lemma {:induction false} RoundTripFrom(s: seq<byte>, front: string, out: seq<byte>)
    ensures Decoding(front + Encoding(s), |front|, out) == Decoded(-1, out + s)
    decreases |s|
  {
    hide Reverse, Letter, Bits0, Bits1, Bits2, Bits3, Byte0, Byte1, Byte2;
    var t := front + Encoding(s);
    var i := |front|;
    if s == [] {
      assert out + s == out;
    } else {
      var x, y, z := s[0], if |s| > 1 then s[1] else 0, if |s| > 2 then s[2] else 0;
      BytesBack(x, y, z);
      ReverseLetter(Bits0(x));
      ReverseLetter(Bits1(x, y));
      ReverseLetter(Bits2(y, z));
      ReverseLetter(Bits3(z));
      EqualsIsPadding();
      assert t[i] == Encoding(s)[0] && t[i + 1] == Encoding(s)[1] && t[i + 2] == Encoding(s)[2] &&
             t[i + 3] == Encoding(s)[3];
      if |s| >= 3 {
        var more := front + Quad(x, y, z);
        assert t == more + Encoding(s[3..]) && out + [x, y, z] + s[3..] == out + s;
        RoundTripFrom(s[3..], more, out + [x, y, z]);
      } else {
        assert |s| == 1 ==> s == [x];
        assert |s| == 2 ==> s == [x, y];
      }
    }
  }

  /** Decoding an encoding succeeds and gives the bytes back. */
  lemma RoundTrip(s: seq<byte>)
    ensures Decoding(Encoding(s), 0, []) == Decoded(-1, s)
  {
    RoundTripFrom(s, "", []);
    assert "" + Encoding(s) == Encoding(s) && [] + s == s;
  }

  // ----- What is decoded and what is refused

  /** Letters are taken everywhere, the padding only at the last two places of four. */
  predicate IsTaken(s: string, k: nat)
    requires k < |s|
  {
    Reverse(s[k]) < 64 || (s[k] == '=' && k % 4 >= 2)
  }

  /** The first place from i on that is not taken, or the length. */
  function FirstBad(s: string, i: nat): (k: nat)
    requires i <= |s|
    ensures i <= k <= |s| && (k < |s| ==> !IsTaken(s, k))
    ensures forall j :: i <= j < k ==> IsTaken(s, j)
    decreases |s| - i
  {
    if i == |s| || !IsTaken(s, i) then i else FirstBad(s, i + 1)
  }

  lemma FirstBadIs(s: string, i: nat, k: nat)
    requires i <= k <= |s| && (k < |s| ==> !IsTaken(s, k))
    requires forall j :: i <= j < k ==> IsTaken(s, j)
    ensures FirstBad(s, i) == k
  {
    hide IsTaken;
  }

  /** The bytes of n whole quads from place i on. */
  function QuadsFrom(s: string, i: nat, n: nat): (r: seq<byte>)
    requires i + 4 * n <= |s|
    ensures n <= |r| <= 3 * n
    decreases n
  {
    if n == 0 then [] else QuadBytes(s, i) + QuadsFrom(s, i + 4, n - 1)
  }

  function QuadBytes(s: string, i: nat): (r: seq<byte>)
    requires i + 4 <= |s|
    ensures 1 <= |r| <= 3
  {
    Bytes(Reverse(s[i]), Reverse(s[i + 1]), Reverse(s[i + 2]), Reverse(s[i + 3]))
  }

  /** What taking a place says of its value, at the four places of a quad. */
  lemma TakenValue(s: string, i: nat, k: nat)
    requires i % 4 == 0 && i <= k < i + 4 && k < |s|
    ensures IsTaken(s, k) <==> if k < i + 2 then Reverse(s[k]) < 254 else Reverse(s[k]) != 254
  {
    hide Reverse;
  }

  /** Four places that are taken are decoded. */
  lemma GoodQuad(s: string, i: nat, out: seq<byte>)
    requires i % 4 == 0 && i + 4 <= |s| && forall j :: i <= j < i + 4 ==> IsTaken(s, j)
    ensures Decoding(s, i, out) == Decoding(s, i + 4, out + QuadBytes(s, i))
  {
    TakenValue(s, i, i);
    TakenValue(s, i, i + 1);
    TakenValue(s, i, i + 2);
    TakenValue(s, i, i + 3);
    hide Reverse, Bytes, IsTaken;
  }

  /** A place among four that is not taken, or the end, stops the decoding. */
  lemma BadQuad(s: string, i: nat, k: nat, out: seq<byte>)
    requires i % 4 == 0 && i <= k < i + 4 && i < |s| && k <= |s| && (k < |s| ==> !IsTaken(s, k))
    requires forall j :: i <= j < k ==> IsTaken(s, j)
    ensures Decoding(s, i, out) == Decoded(k, out)
  {
    NullIsBad();
    forall j | i <= j <= k && j < |s|
      ensures IsTaken(s, j) <==> if j < i + 2 then Reverse(s[j]) < 254 else Reverse(s[j]) != 254
    {
      TakenValue(s, i, j);
    }
    hide Reverse, Bytes, IsTaken;
    assert k > i ==> Reverse(At(s, i)) < 254;
    assert k > i + 1 ==> Reverse(At(s, i + 1)) < 254;
    assert k > i + 2 ==> Reverse(At(s, i + 2)) != 254;
  }

  lemma NullIsBad()
    ensures Reverse('\0') == 254
  {
  }

  /** n good quads and then fewer than four good places. */
  lemma {:induction false} DecodingFrom(s: string, i: nat, n: nat, k: nat, out: seq<byte>)
    requires i % 4 == 0 && i <= |s| && k == FirstBad(s, i) && i + 4 * n <= k < i + 4 * n + 4
    ensures Decoding(s, i, out) == Decoded(if k == |s| == i + 4 * n then -1 else k, out + QuadsFrom(s, i, n))
    decreases n
  {
    hide Decoding, FirstBad, IsTaken, Reverse, Bytes, QuadBytes;
    if n > 0 {
      FirstBadIs(s, i + 4, k);
      DecodingFrom(s, i + 4, n - 1, k, out + QuadBytes(s, i));
      GoodQuad(s, i, out);
      assert out + QuadsFrom(s, i, n) == out + QuadBytes(s, i) + QuadsFrom(s, i + 4, n - 1);
    } else {
      assert out + QuadsFrom(s, i, 0) == out;
      if i < |s| {
        BadQuad(s, i, k, out);
      } else {
        DecodeEnd(s, i, out);
      }
    }
  }

  /** On every string: decoding succeeds exactly when there are whole quads and every place is taken; else it
      stops at the first place that is not, or at the end. The bytes are those of the whole quads before. */
  lemma DecodingIs(s: string)
    ensures var k := FirstBad(s, 0); var r := Decoding(s, 0, []);
            (r.code == -1 <==> |s| % 4 == 0 && forall j :: 0 <= j < |s| ==> IsTaken(s, j)) &&
            (r.code != -1 ==> r.code == k) &&
            r.bytes == QuadsFrom(s, 0, k / 4)
  {
    var k := FirstBad(s, 0);
    DecodingFrom(s, 0, k / 4, k, []);
    hide Decoding, FirstBad, IsTaken, QuadsFrom;
    assert [] + QuadsFrom(s, 0, k / 4) == QuadsFrom(s, 0, k / 4);
    assert k == |s| <==> forall j :: 0 <= j < |s| ==> IsTaken(s, j);
  }

  lemma {:induction false} LettersGiveThree(s: string, i: nat, n: nat)
    requires i + 4 * n <= |s| && '=' !in s
    ensures |QuadsFrom(s, i, n)| == 3 * n
    decreases n
  {
    hide Reverse;
    if n > 0 {
      LettersGiveThree(s, i + 4, n - 1);
      assert s[i + 2] in s && s[i + 3] in s;
    }
  }

  /** Without padding decoding succeeds exactly on whole quads of letters, and four letters give three bytes. */
  lemma Unpadded(s: string)
    requires '=' !in s
    ensures var k := FirstBad(s, 0); var r := Decoding(s, 0, []);
            (r.code == -1 <==> |s| % 4 == 0 && forall j :: 0 <= j < |s| ==> Reverse(s[j]) < 64) &&
            |r.bytes| == 3 * (k / 4)
  {
    hide Decoding, FirstBad, Reverse, QuadsFrom;
    DecodingIs(s);
    LettersGiveThree(s, 0, FirstBad(s, 0) / 4);
    forall j | 0 <= j < |s|
      ensures IsTaken(s, j) <==> Reverse(s[j]) < 64
    {
      assert s[j] in s;
    }
    hide IsTaken;
  }

  // ----- The two functions of the source

  /** The letters of the first group of at most three bytes. */
  function Group(rest: seq<byte>): (g: string)
    requires rest != []
    ensures |g| == if |rest| < 3 then |rest| + 1 else 4
  {
    if |rest| == 1 then [Letter(Bits0(rest[0])), Letter(Bits1(rest[0], 0))]
    else if |rest| == 2 then [Letter(Bits0(rest[0])), Letter(Bits1(rest[0], rest[1])), Letter(Bits2(rest[1], 0))]
    else Quad(rest[0], rest[1], rest[2])
  }

  function Filling(n: nat): (f: string)
    ensures |f| == n
  {
    seq(n, i => '=')
  }

  lemma FillingAfter(a: char, b: char, c: char)
    ensures [a, b, '=', '='] == [a, b] + Filling(2) && [a, b, c, '='] == [a, b, c] + Filling(1)
  {
  }

  lemma GroupFirst(rest: seq<byte>)
    requires rest != []
    ensures Encoding(rest) == Group(rest) + if |rest| >= 3 then Encoding(rest[3..]) else Filling(3 - |rest|)
  {
    hide Letter, Bits0, Bits1, Bits2, Bits3, Filling, Quad;
    if |rest| == 1 {
      FillingAfter(Letter(Bits0(rest[0])), Letter(Bits1(rest[0], 0)), '=');
    } else if |rest| == 2 {
      FillingAfter(Letter(Bits0(rest[0])), Letter(Bits1(rest[0], rest[1])), Letter(Bits2(rest[1], 0)));
    }
  }

  /** What is left to write after the first group of the rest. */
  lemma GroupNext(front: string, rest: seq<byte>, all: string)
    requires rest != [] && front + Encoding(rest) == all
    ensures front + Group(rest) + (if |rest| >= 3 then Encoding(rest[3..]) else Filling(3 - |rest|)) == all
    ensures |front| + |Group(rest)| <= |all|
  {
    hide *;
    GroupFirst(rest);
  }

  /** Writes the letters of the group at place i. */
  method EncodeGroup(src: array<byte>, n: nat, i: nat, dst: array<char>, at: nat) returns (j: nat)
    requires i < n <= src.Length && at + (if n - i < 3 then n - i + 1 else 4) <= dst.Length
    modifies dst
    ensures j == at + |Group(src[i..n])| && dst[..j] == old(dst[..at]) + Group(src[i..n])
  {
    hide Letter, Bits0, Bits1, Bits2, Bits3;
    ghost var front, rest := dst[..at], src[i..n];
    j := at;
    var a := src[i];
    var b := if i + 1 >= n then 0 else src[i + 1];
    var c := if i + 2 >= n then 0 else src[i + 2];
    dst[j] := Letter(Bits0(a));
    j := j + 1;
    dst[j] := Letter(Bits1(a, b));
    j := j + 1;
    if i + 1 < n {
      dst[j] := Letter(Bits2(b, c));
      j := j + 1;
    }
    if i + 2 < n {
      dst[j] := Letter(Bits3(c));
      j := j + 1;
    }
    assert rest[0] == a && (n - i > 1 ==> rest[1] == b) && (n - i > 2 ==> rest[2] == c);
    assert dst[at..j] == Group(rest);
    assert dst[..j] == front + dst[at..j];
  }

  /** Writes the encoding and a null character. */
  method Encode(src: array<byte>, n: nat, dst: array<char>)
    requires n <= src.Length && 4 * ((n + 2) / 3) + 1 <= dst.Length
    modifies dst
    ensures var e := Encoding(src[..n]); dst[..|e|] == e && dst[|e|] == '\0'
  {
    hide *;
    ghost var all := Encoding(src[..n]);
    var i, j := 0, 0;
    assert src[0..n] == src[..n] && dst[..0] + all == all;
    while i < n
      invariant 0 <= i < n + 3 && 0 <= j <= |all| < dst.Length
      invariant i <= n ==> dst[..j] + Encoding(src[i..n]) == all
      invariant i > n ==> dst[..j] + Filling(i - n) == all
    {
      GroupNext(dst[..j], src[i..n], all);
      assert n - i >= 3 ==> src[i..n][3..] == src[i + 3..n];
      j := EncodeGroup(src, n, i, dst, j);
      i := i + 3;
    }
    NothingFilled(src[n..n]);
    j := FillUp(dst, j, if i > n then i - n else 0, all);
    dst[j] := '\0';
  }

  lemma NothingFilled(rest: seq<byte>)
    requires rest == []
    ensures Encoding(rest) == Filling(0) == []
  {
  }

  /** Pads to a multiple of four. */
  method FillUp(dst: array<char>, at: nat, ghost missing: nat, ghost all: string) returns (j: nat)
    requires at <= |all| < dst.Length && missing <= 2 && |all| % 4 == 0 && dst[..at] + Filling(missing) == all
    modifies dst
    ensures j == |all| && dst[..j] == all
  {
    j := at;
    while j % 4 != 0
      invariant at <= j <= |all| && dst[..j] == all[..j]
      decreases |all| - j
    {
      assert all[j] == Filling(missing)[j - at] == '=';
      dst[j] := '=';
      j := j + 1;
    }
  }

  /** One step of the decoding. */
  lemma DecodeQuad(s: string, i: nat, out: seq<byte>)
    requires i < |s|
    ensures var a, b, c, d := Reverse(At(s, i)), Reverse(At(s, i + 1)), Reverse(At(s, i + 2)), Reverse(At(s, i + 3));
            Decoding(s, i, out) ==
            if a >= 254 then Decoded(i, out) else if b >= 254 then Decoded(i + 1, out)
            else if c == 254 then Decoded(i + 2, out) else if d == 254 then Decoded(i + 3, out)
            else Decoding(s, i + 4, out + Bytes(a, b, c, d))
  {
    hide Reverse, Bytes, At;
  }

  /** Writes the one to three bytes of four values. */
  method WriteBytes(dst: array<byte>, at: nat, a: byte, b: byte, c: byte, d: byte) returns (dstLen: nat)
    requires at + 3 <= dst.Length
    modifies dst
    ensures dstLen == at + |Bytes(a, b, c, d)| <= at + 3 && dst[..dstLen] == old(dst[..at]) + Bytes(a, b, c, d)
  {
    hide Byte0, Byte1, Byte2;
    dstLen := at;
    dst[dstLen] := Byte0(a, b);
    dstLen := dstLen + 1;
    if c != 255 {
      dst[dstLen] := Byte1(b, c);
      dstLen := dstLen + 1;
      if d != 255 {
        dst[dstLen] := Byte2(c, d);
        dstLen := dstLen + 1;
      }
    }
  }

  /** Writes the bytes of the letters and returns -1, or the place that stopped it. */
  method Decode(src: array<char>, n: nat, dst: array<byte>) returns (code: int, dstLen: nat)
    requires n <= src.Length && 3 * ((n + 3) / 4) <= dst.Length
    modifies dst
    ensures dstLen <= dst.Length && Decoding(src[..n], 0, []) == Decoded(code, dst[..dstLen])
  {
    hide Reverse, Bytes, Decoding, At;
    ghost var s := src[..n];
    var i := 0;
    dstLen := 0;
    assert dst[..0] == [];
    while i < n
      invariant 0 <= i && i % 4 == 0 && dstLen <= 3 * (i / 4)
      invariant dstLen <= dst.Length
      invariant Decoding(s, i, dst[..dstLen]) == Decoding(s, 0, [])
    {
      DecodeQuad(s, i, dst[..dstLen]);
      AtPlace(src, n, i);
      AtPlace(src, n, i + 1);
      AtPlace(src, n, i + 2);
      AtPlace(src, n, i + 3);
      var a := Reverse(src[i]);
      if a >= 254 {
        return i, dstLen;
      }
      var b := Reverse(if i + 1 >= n then '\0' else src[i + 1]);
      if b >= 254 {
        return i + 1, dstLen;
      }
      var c := Reverse(if i + 2 >= n then '\0' else src[i + 2]);
      if c == 254 {
        return i + 2, dstLen;
      }
      var d := Reverse(if i + 3 >= n then '\0' else src[i + 3]);
      if d == 254 {
        return i + 3, dstLen;
      }
      dstLen := WriteBytes(dst, dstLen, a, b, c, d);
      i := i + 4;
    }
    DecodeEnd(s, i, dst[..dstLen]);
    code := -1;
  }

  lemma AtPlace(src: array<char>, n: nat, k: nat)
    requires n <= src.Length
    ensures At(src[..n], k) == if k >= n then '\0' else src[k]
  {
  }

  lemma DecodeEnd(s: string, i: nat, out: seq<byte>)
    requires i >= |s|
    ensures Decoding(s, i, out) == Decoded(-1, out)
  {
  }
}
