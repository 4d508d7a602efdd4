// Messages taken 64 bytes at a time, as src/common/sha-1.c and src/common/vscpmd5.c take
// them: whole blocks, the tail that waits for more bytes, and the padding at the end.

module BlockStream {

  type Block = b: seq<bv8> | |b| == 64 witness seq(64, i => 0)

  /** The whole blocks of bytes taken in order. */
  function Absorb<S>(step: (S, Block) -> S, s: S, bytes: seq<bv8>): S
    requires |bytes| % 64 == 0
  {
    if bytes == [] then s
    else step(Absorb(step, s, bytes[..|bytes| - 64]), bytes[|bytes| - 64..])
  }

  lemma {:induction false} AbsorbJoin<S>(step: (S, Block) -> S, s: S, a: seq<bv8>, b: seq<bv8>)
    requires |a| % 64 == 0 && |b| % 64 == 0
    ensures Absorb(step, s, a + b) == Absorb(step, Absorb(step, s, a), b)
  {
    if b == [] {
      assert a + b == a;
    } else {
      var n := |b| - 64;
      AbsorbJoin(step, s, a, b[..n]);
      assert (a + b)[..|a + b| - 64] == a + b[..n];
      assert (a + b)[|a + b| - 64..] == b[n..];
    }
  }

  lemma AbsorbOne<S>(step: (S, Block) -> S, s: S, a: seq<bv8>, b: Block)
    requires |a| % 64 == 0
    ensures Absorb(step, s, a + b) == step(Absorb(step, s, a), b)
  {
    assert (a + b)[..|a + b| - 64] == a;
    assert (a + b)[|a + b| - 64..] == b;
  }

  function Whole(message: seq<bv8>): (w: seq<bv8>)
    ensures |w| % 64 == 0
  {
    message[..|message| - |message| % 64]
  }

  function Tail(message: seq<bv8>): (t: seq<bv8>)
    ensures |t| == |message| % 64
  {
    message[|message| - |message| % 64..]
  }

  /** More bytes that do not fill the block lengthen the tail; more that fill it empty the tail. */
  lemma MoreBytes(message: seq<bv8>, more: seq<bv8>)
    requires |message| % 64 + |more| <= 64
    ensures if |message| % 64 + |more| < 64 then Whole(message + more) == Whole(message) &&
            Tail(message + more) == Tail(message) + more
            else Whole(message + more) == Whole(message) + (Tail(message) + more) && Tail(message + more) == []
  {
    var all := message + more;
    var n := |message| - |message| % 64;
    assert all == Whole(message) + (Tail(message) + more);
    if |message| % 64 + |more| < 64 {
      assert |all| - |all| % 64 == n;
    } else {
      assert |all| % 64 == 0;
    }
  }

  function Zeros(n: nat): (z: seq<bv8>)
    ensures |z| == n && forall i :: 0 <= i < n ==> z[i] == 0
  {
    seq(n, i => 0)
  }

  /** The zeros that leave room for eight bytes at the end of a block. */
  function Gap(length: nat): (n: nat)
    ensures n < 64 && (length + 1 + n + 8) % 64 == 0
  {
    (119 - length % 64) % 64
  }

  lemma ZerosJoin(a: nat, b: nat)
    ensures Zeros(a) + Zeros(b) == Zeros(a + b)
  {
  }

  /** The gap from the place after the one bit: to the end of this block or of the next. */
  lemma GapSplit(length: nat)
    ensures var room := 64 - (length + 1) % 64; Gap(length) == if room < 8 then room + 56 else room - 8
  {
  }

  /** A one bit, the fewest zeros, and eight bytes for the length: whole blocks. */
  function Padded(message: seq<bv8>, length: seq<bv8>): (p: seq<bv8>)
    requires |length| == 8
    ensures |p| % 64 == 0
  {
    message + [0x80] + Zeros(Gap(|message|)) + length
  }

  /** Octet k of a number, counted from the low end. */
  function Octet(n: nat, k: nat): bv8
    requires k < 8
  {
    (match k
     case 0 => n % 256
     case 1 => n / 0x100 % 256
     case 2 => n / 0x1_0000 % 256
     case 3 => n / 0x100_0000 % 256
     case 4 => n / 0x1_0000_0000 % 256
     case 5 => n / 0x100_0000_0000 % 256
     case 6 => n / 0x1_0000_0000_0000 % 256
     case 7 => n / 0x100_0000_0000_0000 % 256) as bv8
  }
}
