// src/common/sha-1.c: SHA-1 with a ring of 16 words in place of the schedule of 80 words,
// fed by any number of calls.

module Sha1 {
  import opened BlockStream

  type word = bv32

  // ----- Functions and constants of FIPS 180-1, sections 5 and 6

  function F0(b: word, c: word, d: word): word { (b & c) | (!b & d) }
  function F1(b: word, c: word, d: word): word { b ^ c ^ d }
  function F2(b: word, c: word, d: word): word { (b & c) | (b & d) | (c & d) }
  function F3(b: word, c: word, d: word): word { b ^ c ^ d }

  function F(t: int, b: word, c: word, d: word): word {
    if t < 20 then F0(b, c, d) else if t < 40 then F1(b, c, d) else if t < 60 then F2(b, c, d) else F3(b, c, d)
  }

  function K(t: int): word {
    if t < 20 then 0x5a827999 else if t < 40 then 0x6ed9eba1 else if t < 60 then 0x8f1bbcdc else 0xca62c1d6
  }

  function S1(x: word): word { (x << 1) | (x >> 31) }
  function S5(x: word): word { (x << 5) | (x >> 27) }
  function S30(x: word): word { (x << 30) | (x >> 2) }

  function Sum(x: word, y: word): word { x + y }

  function Mix(a: word, b: word, c: word, d: word): word {
    S1(a ^ b ^ c ^ d)
  }

  function BigEndian(a: bv8, b: bv8, c: bv8, d: bv8): word {
    ((a as word) << 24) | ((b as word) << 16) | ((c as word) << 8) | (d as word)
  }

  function ByteAt(w: word, k: int): bv8
    requires 0 <= k < 4
  {
    match k
    case 0 => (w >> 24) as bv8
    case 1 => ((w >> 16) & 0xff) as bv8
    case 2 => ((w >> 8) & 0xff) as bv8
    case 3 => (w & 0xff) as bv8
  }

  // ----- One block with the schedule of 80 words, section 7

  datatype Vars = Vars(a: word, b: word, c: word, d: word, e: word)

  const INITIAL := Vars(0x67452301, 0xefcdab89, 0x98badcfe, 0x10325476, 0xc3d2e1f0)

  /** The first n words of the schedule. */
  function Schedule(m: Block, n: nat): (w: seq<word>)
    ensures |w| == n
  {
    if n == 0 then []
    else
      var w := Schedule(m, n - 1);
      w + [if n <= 16 then BigEndian(m[4 * n - 4], m[4 * n - 3], m[4 * n - 2], m[4 * n - 1])
           else Mix(w[n - 4], w[n - 9], w[n - 15], w[n - 17])]
  }

  function Round(t: int, v: Vars, w: word): Vars {
    Vars(Sum(Sum(Sum(Sum(S5(v.a), F(t, v.b, v.c, v.d)), v.e), w), K(t)), v.a, S30(v.b), v.c, v.d)
  }

  function Rounds(v: Vars, w: seq<word>): Vars {
    if w == [] then v else Round(|w| - 1, Rounds(v, w[..|w| - 1]), w[|w| - 1])
  }

  function Compress(h: Vars, m: Block): Vars {
    var v := Rounds(h, Schedule(m, 80));
    Vars(Sum(h.a, v.a), Sum(h.b, v.b), Sum(h.c, v.c), Sum(h.d, v.d), Sum(h.e, v.e))
  }

  // ----- The digest of a message, section 4 for the padding

  /** The number of bits as eight bytes, the highest first. */
  function LengthBytes(bits: nat): (s: seq<bv8>)
    ensures |s| == 8
  {
    seq(8, (i: int) requires 0 <= i < 8 => Octet(bits, 7 - i))
  }

  function Hash(message: seq<bv8>): Vars {
    Absorb(Compress, INITIAL, Padded(message, LengthBytes(8 * |message| % 0x1_0000_0000_0000_0000)))
  }

  function WordBytes(w: word): (s: seq<bv8>)
    ensures |s| == 4
  {
    [ByteAt(w, 0), ByteAt(w, 1), ByteAt(w, 2), ByteAt(w, 3)]
  }

  function Digest(message: seq<bv8>): (s: seq<bv8>)
    ensures |s| == 20
  {
    var h := Hash(message);
    WordBytes(h.a) + WordBytes(h.b) + WordBytes(h.c) + WordBytes(h.d) + WordBytes(h.e)
  }

  // ----- The ring of 16 words

  /** The ring holds the last 16 words of the schedule, word j in place j mod 16. */
  ghost predicate Ring(ring: seq<word>, w: seq<word>) {
    |ring| == 16 && |w| >= 16 && forall j :: |w| - 16 <= j < |w| ==> ring[j % 16] == w[j]
  }

  lemma Places(t: nat)
    requires t >= 16
    ensures (t % 16 + 13) % 16 == (t - 3) % 16 && (t % 16 + 8) % 16 == (t - 8) % 16
    ensures (t % 16 + 2) % 16 == (t - 14) % 16 && (t - 16) % 16 == t % 16
  {
    assert t == 16 * (t / 16) + t % 16;
  }

  lemma OtherPlace(t: nat, j: nat)
    requires t - 16 < j < t
    ensures j % 16 != t % 16
  {
  }

  /** The places that the source reads and writes keep the ring in step. */
  lemma RingTurns(ring: seq<word>, w: seq<word>, x: word)
    requires Ring(ring, w)
    ensures var t := |w|; var s := t % 16;
            ring[(s + 13) % 16] == w[t - 3] && ring[(s + 8) % 16] == w[t - 8] &&
            ring[(s + 2) % 16] == w[t - 14] && ring[s] == w[t - 16]
    ensures Ring(ring[|w| % 16 := x], w + [x])
  {
    var t := |w|;
    Places(t);
    forall j | t - 15 <= j <= t
      ensures ring[t % 16 := x][j % 16] == (w + [x])[j]
    {
      if j < t {
        OtherPlace(t, j);
      }
    }
  }

  lemma {:induction false} SchedulePrefix(m: Block, n: nat, k: nat)
    requires k <= n
    ensures Schedule(m, n)[..k] == Schedule(m, k)
  {
    hide BigEndian, Mix;
    if k < n {
      SchedulePrefix(m, n - 1, k);
      assert Schedule(m, n)[..k] == Schedule(m, n - 1)[..k];
    } else {
      assert Schedule(m, n)[..k] == Schedule(m, n);
    }
  }

  /** One round more. */
  lemma RoundMore(v: Vars, m: Block, t: nat)
    ensures Rounds(v, Schedule(m, t + 1)) == Round(t, Rounds(v, Schedule(m, t)), Schedule(m, t + 1)[t])
  {
    hide BigEndian, Mix, Round;
    SchedulePrefix(m, t + 1, t);
  }

  lemma NextWord(m: Block, t: nat)
    requires t >= 16
    ensures var w := Schedule(m, t); Schedule(m, t + 1) == w + [Mix(w[t - 3], w[t - 8], w[t - 14], w[t - 16])]
  {
    hide Mix, BigEndian;
  }

  lemma RingMore(ring: seq<word>, m: Block, t: nat)
    requires t >= 16 && Ring(ring, Schedule(m, t))
    ensures var s := t % 16;
            var x := Mix(ring[(s + 13) % 16], ring[(s + 8) % 16], ring[(s + 2) % 16], ring[s]);
            Schedule(m, t + 1) == Schedule(m, t) + [x] && Ring(ring[s := x], Schedule(m, t + 1))
  {
    hide Mix, BigEndian, Schedule;
    NextWord(m, t);
    var s := t % 16;
    RingTurns(ring, Schedule(m, t), Mix(ring[(s + 13) % 16], ring[(s + 8) % 16], ring[(s + 2) % 16], ring[s]));
    hide Ring;
  }

  /** The word that the source writes over place t mod 16. */
  method Turn(w: array<word>, ghost m: Block, t: nat)
    requires w.Length == 16 && t >= 16 && Ring(w[..], Schedule(m, t))
    modifies w
    ensures Ring(w[..], Schedule(m, t + 1)) && w[t % 16] == Schedule(m, t + 1)[t]
  {
    hide Mix, BigEndian, Ring, Schedule;
    var s := t % 16;
    RingMore(w[..], m, t);
    ghost var before := w[..];
    w[s] := Mix(w[(s + 13) % 16], w[(s + 8) % 16], w[(s + 2) % 16], w[s]);
    assert w[..] == before[s := w[s]];
  }

  /** The four loops of 20 rounds over the words of a block. */
  method RunRounds(w: array<word>, ghost m: Block, h: Vars) returns (v: Vars)
    requires w.Length == 16 && w[..] == Schedule(m, 16)
    modifies w
    ensures v == Rounds(h, Schedule(m, 80))
  {
    hide F0, F1, F2, F3, S1, S5, S30, Sum, Mix, BigEndian, K, Schedule, Rounds, Ring;
    var a, b, c, d, e := h.a, h.b, h.c, h.d, h.e;
    NoRounds(h, m);
    var t := 0;
    while t < 16
      invariant 0 <= t <= 16 && Vars(a, b, c, d, e) == Rounds(h, Schedule(m, t))
      modifies {}
    {
      SchedulePrefix(m, 16, t + 1);
      RoundMore(h, m, t);
      var tmp := Sum(Sum(Sum(Sum(S5(a), F0(b, c, d)), e), w[t]), K(t));
      e, d, c, b, a := d, c, S30(b), a, tmp;
      t := t + 1;
    }
    RingStarts(w[..], m);
    while t < 20
      invariant 16 <= t <= 20 && Ring(w[..], Schedule(m, t)) && Vars(a, b, c, d, e) == Rounds(h, Schedule(m, t))
      modifies w
    {
      RoundMore(h, m, t);
      Turn(w, m, t);
      var tmp := Sum(Sum(Sum(Sum(S5(a), F0(b, c, d)), e), w[t % 16]), K(t));
      e, d, c, b, a := d, c, S30(b), a, tmp;
      t := t + 1;
    }
    while t < 40
      invariant 20 <= t <= 40 && Ring(w[..], Schedule(m, t)) && Vars(a, b, c, d, e) == Rounds(h, Schedule(m, t))
      modifies w
    {
      RoundMore(h, m, t);
      Turn(w, m, t);
      var tmp := Sum(Sum(Sum(Sum(S5(a), F1(b, c, d)), e), w[t % 16]), K(t));
      e, d, c, b, a := d, c, S30(b), a, tmp;
      t := t + 1;
    }
    while t < 60
      invariant 40 <= t <= 60 && Ring(w[..], Schedule(m, t)) && Vars(a, b, c, d, e) == Rounds(h, Schedule(m, t))
      modifies w
    {
      RoundMore(h, m, t);
      Turn(w, m, t);
      var tmp := Sum(Sum(Sum(Sum(S5(a), F2(b, c, d)), e), w[t % 16]), K(t));
      e, d, c, b, a := d, c, S30(b), a, tmp;
      t := t + 1;
    }
    while t < 80
      invariant 60 <= t <= 80 && Ring(w[..], Schedule(m, t)) && Vars(a, b, c, d, e) == Rounds(h, Schedule(m, t))
      modifies w
    {
      RoundMore(h, m, t);
      Turn(w, m, t);
      var tmp := Sum(Sum(Sum(Sum(S5(a), F3(b, c, d)), e), w[t % 16]), K(t));
      e, d, c, b, a := d, c, S30(b), a, tmp;
      t := t + 1;
    }
    v := Vars(a, b, c, d, e);
  }

  // ----- The context

  class Sha1Ctxt {
    const h: array<word>
    var c: nat
    const m: array<bv8>
    var count: nat
    ghost var message: seq<bv8>

    function State(): Vars
      reads this, h
      requires h.Length == 5
    {
      Vars(h[0], h[1], h[2], h[3], h[4])
    }

    /** h has absorbed the whole blocks of bytes and m holds their tail. */
    ghost predicate Fed(bytes: seq<bv8>)
      reads this, h, m
    {
      && Shaped()
      && State() == Absorb(Compress, INITIAL, Whole(bytes))
      && count == |bytes| % 64
      && m[..count] == Tail(bytes)
    }

    /** Between calls: fed with the message, and c counts its bits. */
    ghost predicate Valid()
      reads this, h, m
    {
      Fed(message) && c == 8 * |message| % 0x1_0000_0000_0000_0000
    }

    ghost predicate Shaped()
    {
      h.Length == 5 && m.Length == 64
    }

    constructor ()
      ensures Valid() && message == [] && fresh(h) && fresh(m)
    {
      h := new word[5];
      m := new bv8[64](i => 0);
      c := 0;
      count := 0;
      message := [];
      new;
      h[0], h[1], h[2], h[3], h[4] := 0x67452301, 0xefcdab89, 0x98badcfe, 0x10325476, 0xc3d2e1f0;
    }

    /** Compresses the block in m. */
    method Step()
      requires Shaped()
      modifies h, m
      ensures State() == Compress(old(State()), old(m[..]))
      ensures m[..] == Zeros(64)
    {
      ghost var block: Block := m[..];
      var w := new word[16];
      LoadWords(w);
      hide Sum, Schedule, Rounds;
      var v := RunRounds(w, block, State());
      h[0] := Sum(h[0], v.a);
      h[1] := Sum(h[1], v.b);
      h[2] := Sum(h[2], v.c);
      h[3] := Sum(h[3], v.d);
      h[4] := Sum(h[4], v.e);
      forall i | 0 <= i < 64 {
        m[i] := 0;
      }
    }

    /** The bytes of m as words, the first byte highest. */
    method LoadWords(w: array<word>)
      requires Shaped() && w.Length == 16
      modifies w
      ensures w[..] == Schedule(m[..], 16)
    {
      hide BigEndian, Mix;
      ghost var block: Block := m[..];
      var i := 0;
      while i < 16
        invariant 0 <= i <= 16 && w[..i] == Schedule(block, i)
      {
        w[i] := BigEndian(m[4 * i], m[4 * i + 1], m[4 * i + 2], m[4 * i + 3]);
        i := i + 1;
      }
    }

    /** Takes note of bytes put after the tail: a full block is compressed. */
    method StepIfFull(ghost bytes: seq<bv8>, ghost more: seq<bv8>)
      requires Shaped() && more != [] && |bytes| % 64 + |more| <= 64
      requires State() == Absorb(Compress, INITIAL, Whole(bytes))
      requires count == (|bytes| % 64 + |more|) % 64 && m[..|bytes| % 64 + |more|] == Tail(bytes) + more
      modifies h, m
      ensures Fed(bytes + more)
    {
      hide Compress, Absorb, Whole, Tail;
      MoreBytes(bytes, more);
      if count == 0 {
        ghost var block: Block := Tail(bytes) + more;
        assert m[..] == block;
        AbsorbOne(Compress, INITIAL, Whole(bytes), block);
        Step();
      }
    }

    method PutPad(x: bv8, ghost bytes: seq<bv8>)
      requires Fed(bytes)
      modifies `count, h, m
      ensures Fed(bytes + [x])
    {
      hide Compress, Absorb, Whole, Tail;
      ghost var n := count;
      m[count] := x;
      count := (count + 1) % 64;
      assert m[..n + 1] == Tail(bytes) + [x];
      StepIfFull(bytes, [x]);
    }

    /** Adds len bytes of input to the message. */
    method Loop(input: array<bv8>, len: nat)
      requires Valid() && len <= input.Length && input != m
      modifies this, h, m
      ensures Valid() && message == old(message) + input[..len]
    {
      hide Fed;
      var off := 0;
      while off < len
        invariant 0 <= off <= len && Valid() && message == old(message) + input[..off]
        modifies this, h, m
      {
        ghost var before := message;
        var gapstart := count;
        BlockCount();
        var gaplen := 64 - gapstart;
        var copysiz := if gaplen < len - off then gaplen else len - off;
        CopyIn(input, off, copysiz);
        assert input[..off + copysiz] == input[..off] + input[off..off + copysiz];
        off := off + copysiz;
      }
    }

    lemma BlockCount()
      requires Valid()
      ensures count < 64
    {
    }

    method CopyIn(input: array<bv8>, off: nat, copysiz: nat)
      requires Valid() && 0 < copysiz <= 64 - count && off + copysiz <= input.Length && input != m
      modifies this, h, m
      ensures Valid() && message == old(message) + input[off..off + copysiz]
    {
      hide Compress, Absorb, Whole, Tail;
      ghost var more := input[off..off + copysiz];
      Copy(count, input, off, copysiz);
      count := (count + copysiz) % 64;
      c := (c + copysiz * 8) % 0x1_0000_0000_0000_0000;
      BitCount(8 * |message|, copysiz * 8);
      StepIfFull(message, more);
      message := message + more;
    }

    method Copy(at: nat, input: array<bv8>, off: nat, n: nat)
      requires Shaped() && at + n <= 64 && off + n <= input.Length && input != m
      modifies m
      ensures m[..at + n] == old(m[..at]) + input[off..off + n]
    {
      forall i | 0 <= i < n {
        m[at + i] := input[off + i];
      }
    }

    /** Puts zeros after the tail, less than fill the block. */
    method Clear(n: nat, ghost bytes: seq<bv8>)
      requires Fed(bytes) && count + n < 64
      modifies `count, m
      ensures Fed(bytes + Zeros(n)) && count == old(count) + n
    {
      hide Compress, Absorb, Whole, Tail;
      MoreBytes(bytes, Zeros(n));
      forall i | count <= i < count + n {
        m[i] := 0;
      }
      assert m[..count + n] == Tail(bytes) + Zeros(n);
      count := (count + n) % 64;
    }

    /** Puts zeros up to the end of the block and compresses it. */
    method ClearBlock(ghost bytes: seq<bv8>)
      requires Fed(bytes)
      modifies `count, h, m
      ensures count == 0 && Fed(bytes + Zeros(64 - old(count)))
    {
      hide Compress, Absorb, Whole, Tail;
      var n := count;
      forall i | n <= i < 64 {
        m[i] := 0;
      }
      assert m[..64] == Tail(bytes) + Zeros(64 - n);
      count := (count + (64 - n)) % 64;
      StepIfFull(bytes, Zeros(64 - n));
    }

    /** The three paddings: room for the length, exactly room for it, and a block more. */
    method Pad()
      requires Valid()
      modifies `count, h, m
      ensures Fed(Padded(message, LengthBytes(c)))
    {
      hide Fed, LengthBytes, Zeros, Gap;
      ghost var bytes := message + [0x80];
      PutPad(0x80, message);
      CountOf(bytes);
      GapSplit(|message|);
      var padlen := 64 - count;
      if padlen < 8 {
        ClearBlock(bytes);
        bytes := bytes + Zeros(padlen);
        ZerosJoin(padlen, 56);
        padlen := 64;
      }
      Clear(padlen - 8, bytes);
      bytes := bytes + Zeros(padlen - 8);
      assert bytes == message + [0x80] + Zeros(Gap(|message|));
      PutLength(bytes);
    }

    lemma CountOf(bytes: seq<bv8>)
      requires Fed(bytes)
      ensures count == |bytes| % 64
    {
    }

    method PutLength(ghost bytes: seq<bv8>)
      requires Fed(bytes)
      modifies `count, h, m
      ensures Fed(bytes + LengthBytes(c))
    {
      hide Fed, Octet;
      ghost var s := LengthBytes(c);
      PutPad(Octet(c, 7), bytes);
      assert bytes + s[..1] == bytes + [s[0]];
      PutPad(Octet(c, 6), bytes + s[..1]);
      assert bytes + s[..2] == bytes + s[..1] + [s[1]];
      PutPad(Octet(c, 5), bytes + s[..2]);
      assert bytes + s[..3] == bytes + s[..2] + [s[2]];
      PutPad(Octet(c, 4), bytes + s[..3]);
      assert bytes + s[..4] == bytes + s[..3] + [s[3]];
      PutPad(Octet(c, 3), bytes + s[..4]);
      assert bytes + s[..5] == bytes + s[..4] + [s[4]];
      PutPad(Octet(c, 2), bytes + s[..5]);
      assert bytes + s[..6] == bytes + s[..5] + [s[5]];
      PutPad(Octet(c, 1), bytes + s[..6]);
      assert bytes + s[..7] == bytes + s[..6] + [s[6]];
      PutPad(Octet(c, 0), bytes + s[..7]);
      assert bytes + s == bytes + s[..7] + [s[7]];
    }

    /** Writes the digest of the message; the context is then at its end. */
    method Result(digest: array<bv8>)
      requires Valid() && digest.Length == 20 && digest != m
      modifies `count, h, m, digest
      ensures digest[..] == Digest(message)
    {
      hide Fed, Compress, Absorb, Hash, WordBytes, Padded, LengthBytes;
      Pad();
      HashReached();
      WriteWord(digest, 0, h[0]);
      WriteWord(digest, 4, h[1]);
      WriteWord(digest, 8, h[2]);
      WriteWord(digest, 12, h[3]);
      WriteWord(digest, 16, h[4]);
      assert digest[..20] == digest[..];
    }

    lemma HashReached()
      requires Fed(Padded(message, LengthBytes(c))) && c == 8 * |message| % 0x1_0000_0000_0000_0000
      ensures Shaped() && State() == Hash(message)
    {
      hide Compress, Absorb, LengthBytes;
      var bytes := Padded(message, LengthBytes(c));
      hide Padded;
      assert Whole(bytes) == bytes;
    }
  }

  /** Writes a word, its highest byte first. */
  method WriteWord(digest: array<bv8>, at: nat, w: word)
    requires at + 4 <= digest.Length
    modifies digest
    ensures digest[..at + 4] == old(digest[..at]) + WordBytes(w)
  {
    digest[at], digest[at + 1], digest[at + 2], digest[at + 3] := ByteAt(w, 0), ByteAt(w, 1), ByteAt(w, 2),
      ByteAt(w, 3);
    hide ByteAt;
  }

  lemma BitCount(a: nat, b: nat)
    ensures (a % 0x1_0000_0000_0000_0000 + b) % 0x1_0000_0000_0000_0000 == (a + b) % 0x1_0000_0000_0000_0000
  {
  }

  /** The digest of n bytes at once. */
  method SHA1(d: array<bv8>, n: nat, md: array<bv8>)
    requires n <= d.Length && md.Length == 20
    modifies md
    ensures md[..] == Digest(old(d[..n]))
  {
    var ctx := new Sha1Ctxt();
    hide Sha1Ctxt.Fed, Digest;
    ctx.Loop(d, n);
    assert ctx.message == d[..n];
    ctx.Result(md);
  }

  lemma NoRounds(v: Vars, m: Block)
    ensures Rounds(v, Schedule(m, 0)) == v
  {
  }

  lemma RingStarts(w: seq<word>, m: Block)
    requires w == Schedule(m, 16)
    ensures Ring(w, Schedule(m, 16))
  {
    hide BigEndian, Mix, Schedule;
  }
}
