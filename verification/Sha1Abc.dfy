// The SHA-1 of "abc", the first example of FIPS 180-1 (appendix A), round by round: it depends
// on every constant, function and shift of the compression that src/common/sha-1.c computes.

module Sha1Abc {
  import opened BlockStream
  import opened Sha1

  /** The constants are the roots of 2, 3, 5 and 10, times 2^30. */
  lemma ConstantsAreRoots(t: nat)
    requires t < 80
    ensures var n := if t < 20 then 2 else if t < 40 then 3 else if t < 60 then 5 else 10;
            var k := K(t) as int;
            k * k <= n * 0x1000_0000_0000_0000 < (k + 1) * (k + 1)
  {
    if t < 20 {
      assert K(t) as int == 0x5a827999;
    } else if t < 40 {
      assert K(t) as int == 0x6ed9eba1;
    } else if t < 60 {
      assert K(t) as int == 0x8f1bbcdc;
    } else {
      assert K(t) as int == 0xca62c1d6;
    }
    hide K;
  }

  const ABC: seq<bv8> := [0x61, 0x62, 0x63]

  /** The message padded: one block. */
  function Abc(): (m: Block) {
    ABC + [0x80] + Zeros(52) + [0, 0, 0, 0, 0, 0, 0, 0x18]
  }

  /** The words of the schedule. */
  function WordOf(t: nat): word {
    match t
    case 0 => 0x61626380 case 1 => 0x00000000 case 2 => 0x00000000 case 3 => 0x00000000
    case 4 => 0x00000000 case 5 => 0x00000000 case 6 => 0x00000000 case 7 => 0x00000000
    case 8 => 0x00000000 case 9 => 0x00000000 case 10 => 0x00000000 case 11 => 0x00000000
    case 12 => 0x00000000 case 13 => 0x00000000 case 14 => 0x00000000 case 15 => 0x00000018
    case 16 => 0xc2c4c700 case 17 => 0x00000000 case 18 => 0x00000030 case 19 => 0x85898e01
    case 20 => 0x00000000 case 21 => 0x00000060 case 22 => 0x0b131c03 case 23 => 0x00000030
    case 24 => 0x85898ec1 case 25 => 0x16263806 case 26 => 0x00000000 case 27 => 0x00000180
    case 28 => 0x2c4c700c case 29 => 0x000000f0 case 30 => 0x93afb507 case 31 => 0x5898e048
    case 32 => 0x8e9a9202 case 33 => 0x00000600 case 34 => 0xb131c0f0 case 35 => 0x16263bc6
    case 36 => 0x4ebed41e case 37 => 0x626380a1 case 38 => 0x16263806 case 39 => 0x000018c0
    case 40 => 0xd2e138c4 case 41 => 0x00000f00 case 42 => 0x3afb5079 case 43 => 0x898e04e5
    case 44 => 0xe2ba3c2b case 45 => 0x000060c0 case 46 => 0x053a37cd case 47 => 0x74458547
    case 48 => 0xda9415ed case 49 => 0x26380a16 case 50 => 0x626383a1 case 51 => 0x4ebf54de
    case 52 => 0x3835b44b case 53 => 0x0000f600 case 54 => 0x1e84c7a3 case 55 => 0x98e04d98
    case 56 => 0x651d16a0 case 57 => 0x62658ca1 case 58 => 0x458544d6 case 59 => 0x44584cb7
    case 60 => 0x7ba06619 case 61 => 0x6380aea2 case 62 => 0x0ae55269 case 63 => 0x627b49a1
    case 64 => 0x7cd45c9d case 65 => 0x000f0000 case 66 => 0xfb50753a case 67 => 0xec6765e8
    case 68 => 0xba3c2be2 case 69 => 0x0060c000 case 70 => 0x3a37cd05 case 71 => 0x458546f4
    case 72 => 0xb8599dd6 case 73 => 0x380a1a26 case 74 => 0x01e02203 case 75 => 0xe7cc3456
    case 76 => 0xe6e60b69 case 77 => 0x00f60a00 case 78 => 0x5795ef4f case _ => 0x822e0879
  }

  /** The five words before each round, and after the last. */
  function VarsAfter(t: nat): Vars {
    match t
    case 0 => Vars(0x67452301, 0xefcdab89, 0x98badcfe, 0x10325476, 0xc3d2e1f0)
    case 1 => Vars(0x0116fc33, 0x67452301, 0x7bf36ae2, 0x98badcfe, 0x10325476)
    case 2 => Vars(0x8990536d, 0x0116fc33, 0x59d148c0, 0x7bf36ae2, 0x98badcfe)
    case 3 => Vars(0xa1390f08, 0x8990536d, 0xc045bf0c, 0x59d148c0, 0x7bf36ae2)
    case 4 => Vars(0xcdd8e11b, 0xa1390f08, 0x626414db, 0xc045bf0c, 0x59d148c0)
    case 5 => Vars(0xcfd499de, 0xcdd8e11b, 0x284e43c2, 0x626414db, 0xc045bf0c)
    case 6 => Vars(0x3fc7ca40, 0xcfd499de, 0xf3763846, 0x284e43c2, 0x626414db)
    case 7 => Vars(0x993e30c1, 0x3fc7ca40, 0xb3f52677, 0xf3763846, 0x284e43c2)
    case 8 => Vars(0x9e8c07d4, 0x993e30c1, 0x0ff1f290, 0xb3f52677, 0xf3763846)
    case 9 => Vars(0x4b6ae328, 0x9e8c07d4, 0x664f8c30, 0x0ff1f290, 0xb3f52677)
    case 10 => Vars(0x8351f929, 0x4b6ae328, 0x27a301f5, 0x664f8c30, 0x0ff1f290)
    case 11 => Vars(0xfbda9e89, 0x8351f929, 0x12dab8ca, 0x27a301f5, 0x664f8c30)
    case 12 => Vars(0x63188fe4, 0xfbda9e89, 0x60d47e4a, 0x12dab8ca, 0x27a301f5)
    case 13 => Vars(0x4607b664, 0x63188fe4, 0x7ef6a7a2, 0x60d47e4a, 0x12dab8ca)
    case 14 => Vars(0x9128f695, 0x4607b664, 0x18c623f9, 0x7ef6a7a2, 0x60d47e4a)
    case 15 => Vars(0x196bee77, 0x9128f695, 0x1181ed99, 0x18c623f9, 0x7ef6a7a2)
    case 16 => Vars(0x20bdd62f, 0x196bee77, 0x644a3da5, 0x1181ed99, 0x18c623f9)
    case 17 => Vars(0x4e925823, 0x20bdd62f, 0xc65afb9d, 0x644a3da5, 0x1181ed99)
    case 18 => Vars(0x82aa6728, 0x4e925823, 0xc82f758b, 0xc65afb9d, 0x644a3da5)
    case 19 => Vars(0xdc64901d, 0x82aa6728, 0xd3a49608, 0xc82f758b, 0xc65afb9d)
    case 20 => Vars(0xfd9e1d7d, 0xdc64901d, 0x20aa99ca, 0xd3a49608, 0xc82f758b)
    case 21 => Vars(0x1a37b0ca, 0xfd9e1d7d, 0x77192407, 0x20aa99ca, 0xd3a49608)
    case 22 => Vars(0x33a23bfc, 0x1a37b0ca, 0x7f67875f, 0x77192407, 0x20aa99ca)
    case 23 => Vars(0x21283486, 0x33a23bfc, 0x868dec32, 0x7f67875f, 0x77192407)
    case 24 => Vars(0xd541f12d, 0x21283486, 0x0ce88eff, 0x868dec32, 0x7f67875f)
    case 25 => Vars(0xc7567dc6, 0xd541f12d, 0x884a0d21, 0x0ce88eff, 0x868dec32)
    case 26 => Vars(0x48413ba4, 0xc7567dc6, 0x75507c4b, 0x884a0d21, 0x0ce88eff)
    case 27 => Vars(0xbe35fbd5, 0x48413ba4, 0xb1d59f71, 0x75507c4b, 0x884a0d21)
    case 28 => Vars(0x4aa84d97, 0xbe35fbd5, 0x12104ee9, 0xb1d59f71, 0x75507c4b)
    case 29 => Vars(0x8370b52e, 0x4aa84d97, 0x6f8d7ef5, 0x12104ee9, 0xb1d59f71)
    case 30 => Vars(0xc5fbaf5d, 0x8370b52e, 0xd2aa1365, 0x6f8d7ef5, 0x12104ee9)
    case 31 => Vars(0x1267b407, 0xc5fbaf5d, 0xa0dc2d4b, 0xd2aa1365, 0x6f8d7ef5)
    case 32 => Vars(0x3b845d33, 0x1267b407, 0x717eebd7, 0xa0dc2d4b, 0xd2aa1365)
    case 33 => Vars(0x046faa0a, 0x3b845d33, 0xc499ed01, 0x717eebd7, 0xa0dc2d4b)
    case 34 => Vars(0x2c0ebc11, 0x046faa0a, 0xcee1174c, 0xc499ed01, 0x717eebd7)
    case 35 => Vars(0x21796ad4, 0x2c0ebc11, 0x811bea82, 0xcee1174c, 0xc499ed01)
    case 36 => Vars(0xdcbbb0cb, 0x21796ad4, 0x4b03af04, 0x811bea82, 0xcee1174c)
    case 37 => Vars(0x0f511fd8, 0xdcbbb0cb, 0x085e5ab5, 0x4b03af04, 0x811bea82)
    case 38 => Vars(0xdc63973f, 0x0f511fd8, 0xf72eec32, 0x085e5ab5, 0x4b03af04)
    case 39 => Vars(0x4c986405, 0xdc63973f, 0x03d447f6, 0xf72eec32, 0x085e5ab5)
    case 40 => Vars(0x32de1cba, 0x4c986405, 0xf718e5cf, 0x03d447f6, 0xf72eec32)
    case 41 => Vars(0xfc87dedf, 0x32de1cba, 0x53261901, 0xf718e5cf, 0x03d447f6)
    case 42 => Vars(0x970a0d5c, 0xfc87dedf, 0x8cb7872e, 0x53261901, 0xf718e5cf)
    case 43 => Vars(0x7f193dc5, 0x970a0d5c, 0xff21f7b7, 0x8cb7872e, 0x53261901)
    case 44 => Vars(0xee1b1aaf, 0x7f193dc5, 0x25c28357, 0xff21f7b7, 0x8cb7872e)
    case 45 => Vars(0x40f28e09, 0xee1b1aaf, 0x5fc64f71, 0x25c28357, 0xff21f7b7)
    case 46 => Vars(0x1c51e1f2, 0x40f28e09, 0xfb86c6ab, 0x5fc64f71, 0x25c28357)
    case 47 => Vars(0xa01b846c, 0x1c51e1f2, 0x503ca382, 0xfb86c6ab, 0x5fc64f71)
    case 48 => Vars(0xbead02ca, 0xa01b846c, 0x8714787c, 0x503ca382, 0xfb86c6ab)
    case 49 => Vars(0xbaf39337, 0xbead02ca, 0x2806e11b, 0x8714787c, 0x503ca382)
    case 50 => Vars(0x120731c5, 0xbaf39337, 0xafab40b2, 0x2806e11b, 0x8714787c)
    case 51 => Vars(0x641db2ce, 0x120731c5, 0xeebce4cd, 0xafab40b2, 0x2806e11b)
    case 52 => Vars(0x3847ad66, 0x641db2ce, 0x4481cc71, 0xeebce4cd, 0xafab40b2)
    case 53 => Vars(0xe490436d, 0x3847ad66, 0x99076cb3, 0x4481cc71, 0xeebce4cd)
    case 54 => Vars(0x27e9f1d8, 0xe490436d, 0x8e11eb59, 0x99076cb3, 0x4481cc71)
    case 55 => Vars(0x7b71f76d, 0x27e9f1d8, 0x792410db, 0x8e11eb59, 0x99076cb3)
    case 56 => Vars(0x5e6456af, 0x7b71f76d, 0x09fa7c76, 0x792410db, 0x8e11eb59)
    case 57 => Vars(0xc846093f, 0x5e6456af, 0x5edc7ddb, 0x09fa7c76, 0x792410db)
    case 58 => Vars(0xd262ff50, 0xc846093f, 0xd79915ab, 0x5edc7ddb, 0x09fa7c76)
    case 59 => Vars(0x09d785fd, 0xd262ff50, 0xf211824f, 0xd79915ab, 0x5edc7ddb)
    case 60 => Vars(0x3f52de5a, 0x09d785fd, 0x3498bfd4, 0xf211824f, 0xd79915ab)
    case 61 => Vars(0xd756c147, 0x3f52de5a, 0x4275e17f, 0x3498bfd4, 0xf211824f)
    case 62 => Vars(0x548c9cb2, 0xd756c147, 0x8fd4b796, 0x4275e17f, 0x3498bfd4)
    case 63 => Vars(0xb66c020b, 0x548c9cb2, 0xf5d5b051, 0x8fd4b796, 0x4275e17f)
    case 64 => Vars(0x6b61c9e1, 0xb66c020b, 0x9523272c, 0xf5d5b051, 0x8fd4b796)
    case 65 => Vars(0x19dfa7ac, 0x6b61c9e1, 0xed9b0082, 0x9523272c, 0xf5d5b051)
    case 66 => Vars(0x101655f9, 0x19dfa7ac, 0x5ad87278, 0xed9b0082, 0x9523272c)
    case 67 => Vars(0x0c3df2b4, 0x101655f9, 0x0677e9eb, 0x5ad87278, 0xed9b0082)
    case 68 => Vars(0x78dd4d2b, 0x0c3df2b4, 0x4405957e, 0x0677e9eb, 0x5ad87278)
    case 69 => Vars(0x497093c0, 0x78dd4d2b, 0x030f7cad, 0x4405957e, 0x0677e9eb)
    case 70 => Vars(0x3f2588c2, 0x497093c0, 0xde37534a, 0x030f7cad, 0x4405957e)
    case 71 => Vars(0xc199f8c7, 0x3f2588c2, 0x125c24f0, 0xde37534a, 0x030f7cad)
    case 72 => Vars(0x39859de7, 0xc199f8c7, 0x8fc96230, 0x125c24f0, 0xde37534a)
    case 73 => Vars(0xedb42de4, 0x39859de7, 0xf0667e31, 0x8fc96230, 0x125c24f0)
    case 74 => Vars(0x11793f6f, 0xedb42de4, 0xce616779, 0xf0667e31, 0x8fc96230)
    case 75 => Vars(0x5ee76897, 0x11793f6f, 0x3b6d0b79, 0xce616779, 0xf0667e31)
    case 76 => Vars(0x63f7dab7, 0x5ee76897, 0xc45e4fdb, 0x3b6d0b79, 0xce616779)
    case 77 => Vars(0xa079b7d9, 0x63f7dab7, 0xd7b9da25, 0xc45e4fdb, 0x3b6d0b79)
    case 78 => Vars(0x860d21cc, 0xa079b7d9, 0xd8fdf6ad, 0xd7b9da25, 0xc45e4fdb)
    case 79 => Vars(0x5738d5e1, 0x860d21cc, 0x681e6df6, 0xd8fdf6ad, 0xd7b9da25)
    case _ => Vars(0x42541b35, 0x5738d5e1, 0x21834873, 0x681e6df6, 0xd8fdf6ad)
  }

  lemma RoundOf0(t: nat)
    requires 0 <= t < 16
    ensures Round(t, VarsAfter(t), WordOf(t)) == VarsAfter(t + 1)
  {
    match t
    case 0 => case 1 => case 2 => case 3 => case 4 => case 5 => case 6 => case 7 =>
    case 8 => case 9 => case 10 => case 11 => case 12 => case 13 => case 14 => case 15 =>
  }

  lemma RoundOf1(t: nat)
    requires 16 <= t < 32
    ensures Round(t, VarsAfter(t), WordOf(t)) == VarsAfter(t + 1)
  {
    match t
    case 16 => case 17 => case 18 => case 19 => case 20 => case 21 => case 22 => case 23 =>
    case 24 => case 25 => case 26 => case 27 => case 28 => case 29 => case 30 => case 31 =>
  }

  lemma RoundOf2(t: nat)
    requires 32 <= t < 48
    ensures Round(t, VarsAfter(t), WordOf(t)) == VarsAfter(t + 1)
  {
    match t
    case 32 => case 33 => case 34 => case 35 => case 36 => case 37 => case 38 => case 39 =>
    case 40 => case 41 => case 42 => case 43 => case 44 => case 45 => case 46 => case 47 =>
  }

  lemma RoundOf3(t: nat)
    requires 48 <= t < 64
    ensures Round(t, VarsAfter(t), WordOf(t)) == VarsAfter(t + 1)
  {
    match t
    case 48 => case 49 => case 50 => case 51 => case 52 => case 53 => case 54 => case 55 =>
    case 56 => case 57 => case 58 => case 59 => case 60 => case 61 => case 62 => case 63 =>
  }

  lemma RoundOf4(t: nat)
    requires 64 <= t < 80
    ensures Round(t, VarsAfter(t), WordOf(t)) == VarsAfter(t + 1)
  {
    match t
    case 64 => case 65 => case 66 => case 67 => case 68 => case 69 => case 70 => case 71 =>
    case 72 => case 73 => case 74 => case 75 => case 76 => case 77 => case 78 => case 79 =>
  }

  lemma RoundOf(t: nat)
    requires 0 <= t < 80
    ensures Round(t, VarsAfter(t), WordOf(t)) == VarsAfter(t + 1)
  {
    if t < 16 {
      RoundOf0(t);
    } else if t < 32 {
      RoundOf1(t);
    } else if t < 48 {
      RoundOf2(t);
    } else if t < 64 {
      RoundOf3(t);
    } else {
      RoundOf4(t);
    }
  }

  lemma MixOf0(t: nat)
    requires 16 <= t < 48
    ensures Mix(WordOf(t - 3), WordOf(t - 8), WordOf(t - 14), WordOf(t - 16)) == WordOf(t)
  {
    match t
    case 16 => case 17 => case 18 => case 19 => case 20 => case 21 => case 22 => case 23 =>
    case 24 => case 25 => case 26 => case 27 => case 28 => case 29 => case 30 => case 31 =>
    case 32 => case 33 => case 34 => case 35 => case 36 => case 37 => case 38 => case 39 =>
    case 40 => case 41 => case 42 => case 43 => case 44 => case 45 => case 46 => case 47 =>
  }

  lemma MixOf1(t: nat)
    requires 48 <= t < 80
    ensures Mix(WordOf(t - 3), WordOf(t - 8), WordOf(t - 14), WordOf(t - 16)) == WordOf(t)
  {
    match t
    case 48 => case 49 => case 50 => case 51 => case 52 => case 53 => case 54 => case 55 =>
    case 56 => case 57 => case 58 => case 59 => case 60 => case 61 => case 62 => case 63 =>
    case 64 => case 65 => case 66 => case 67 => case 68 => case 69 => case 70 => case 71 =>
    case 72 => case 73 => case 74 => case 75 => case 76 => case 77 => case 78 => case 79 =>
  }

  lemma MixOf(t: nat)
    requires 16 <= t < 80
    ensures Mix(WordOf(t - 3), WordOf(t - 8), WordOf(t - 14), WordOf(t - 16)) == WordOf(t)
  {
    if t < 48 {
      MixOf0(t);
    } else {
      MixOf1(t);
    }
  }

  lemma AbcIs()
    ensures Padded(ABC, LengthBytes(24)) == Abc()
  {
    LengthIs();
    assert Gap(3) == 52;
    hide Zeros, LengthBytes, Gap;
  }

  lemma LengthIs()
    ensures LengthBytes(24) == [0, 0, 0, 0, 0, 0, 0, 0x18]
  {
    hide Octet;
    FirstOctet();
    forall k | 0 < k < 8
      ensures Octet(24, k) == 0
    {
      OtherOctet(24, k);
    }
  }

  lemma FirstOctet()
    ensures Octet(24, 0) == 0x18
  {
  }

  lemma OtherOctet(n: nat, k: nat)
    requires n < 256 && 0 < k < 8
    ensures Octet(n, k) == 0
  {
  }

  lemma FirstWords(t: nat)
    requires t < 16
    ensures BigEndian(Abc()[4 * t], Abc()[4 * t + 1], Abc()[4 * t + 2], Abc()[4 * t + 3]) == WordOf(t)
  {
    var m := Abc();
    if 0 < t < 15 {
      assert m[4 * t] == m[4 * t + 1] == m[4 * t + 2] == m[4 * t + 3] == 0;
      assert BigEndian(0, 0, 0, 0) == 0;
      ZeroWords(t);
    } else if t == 0 {
      assert BigEndian(0x61, 0x62, 0x63, 0x80) == 0x61626380;
    } else {
      assert BigEndian(0, 0, 0, 0x18) == 0x18;
    }
  }

  lemma ZeroWords(t: nat)
    requires 0 < t < 15
    ensures WordOf(t) == 0
  {
  }

  lemma {:induction false} ScheduleIs(n: nat)
    requires n <= 80
    ensures forall t :: 0 <= t < n ==> Schedule(Abc(), n)[t] == WordOf(t)
  {
    hide WordOf, Mix, BigEndian, Abc, Schedule;
    if n > 0 {
      ScheduleIs(n - 1);
      NextWord(Abc(), n);
      if n <= 16 {
        FirstWords(n - 1);
      } else {
        MixOf(n - 1);
      }
    }
  }

  lemma NextWord(m: Block, n: nat)
    requires n > 0
    ensures var w := Schedule(m, n - 1);
            Schedule(m, n) ==
            w + [if n <= 16 then BigEndian(m[4 * n - 4], m[4 * n - 3], m[4 * n - 2], m[4 * n - 1])
                 else Mix(w[n - 4], w[n - 9], w[n - 15], w[n - 17])]
  {
    hide Mix, BigEndian;
  }

  lemma {:induction false} RoundsAre(w: seq<word>)
    requires |w| <= 80 && forall t :: 0 <= t < |w| ==> w[t] == WordOf(t)
    ensures Rounds(INITIAL, w) == VarsAfter(|w|)
  {
    if w == [] {
      Beginning();
    } else {
      hide WordOf, VarsAfter, Round;
      RoundsAre(w[..|w| - 1]);
      RoundOf(|w| - 1);
    }
  }

  lemma Beginning()
    ensures VarsAfter(0) == INITIAL
  {
  }

  lemma Sums()
    ensures var h, v := INITIAL, VarsAfter(80);
            Sum(h.a, v.a) == 0xa9993e36 && Sum(h.b, v.b) == 0x4706816a && Sum(h.c, v.c) == 0xba3e2571 &&
            Sum(h.d, v.d) == 0x7850c26c && Sum(h.e, v.e) == 0x9cd0d89d
  {
  }

  /** SHA-1 of "abc" is a9993e36 4706816a ba3e2571 7850c26c 9cd0d89d. */
  lemma DigestOfAbc()
    ensures Digest(ABC) == [
      0xa9, 0x99, 0x3e, 0x36, 0x47, 0x06, 0x81, 0x6a, 0xba, 0x3e,
      0x25, 0x71, 0x78, 0x50, 0xc2, 0x6c, 0x9c, 0xd0, 0xd8, 0x9d]
  {
    HashOfAbc();
    AbcBytes();
    hide Hash, WordBytes;
  }

  lemma AbcBytes()
    ensures WordBytes(0xa9993e36) == [0xa9, 0x99, 0x3e, 0x36]
    ensures WordBytes(0x4706816a) == [0x47, 0x06, 0x81, 0x6a]
    ensures WordBytes(0xba3e2571) == [0xba, 0x3e, 0x25, 0x71]
    ensures WordBytes(0x7850c26c) == [0x78, 0x50, 0xc2, 0x6c]
    ensures WordBytes(0x9cd0d89d) == [0x9c, 0xd0, 0xd8, 0x9d]
  {
  }

  lemma HashOfAbc()
    ensures Hash(ABC) == Vars(0xa9993e36, 0x4706816a, 0xba3e2571, 0x7850c26c, 0x9cd0d89d)
  {
    AbcIs();
    CompressAbc();
    hide Compress, Abc, Padded, LengthBytes;
    OneBlock(Abc());
  }

  lemma CompressAbc()
    ensures Compress(INITIAL, Abc()) == Vars(0xa9993e36, 0x4706816a, 0xba3e2571, 0x7850c26c, 0x9cd0d89d)
  {
    ScheduleIs(80);
    RoundsAre(Schedule(Abc(), 80));
    hide Schedule, Rounds, Abc, WordOf;
    Sums();
    hide VarsAfter, Sum;
  }

  lemma OneBlock(m: Block)
    ensures Absorb(Compress, INITIAL, m) == Compress(INITIAL, m)
  {
    hide Compress;
    AbsorbOne(Compress, INITIAL, [], m);
    assert [] + m == m;
  }
}
