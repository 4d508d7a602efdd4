// src/common/fifo.c: a byte queue over a ring of size places, of which one stays free.

module Fifo {

  /** The bytes from tail to head, around the end of the ring. */
  function Span(ring: seq<bv8>, tail: nat, head: nat): (s: seq<bv8>)
    requires head < |ring| && tail < |ring|
    ensures |s| == (if tail <= head then head - tail else |ring| - tail + head) < |ring|
  {
    if tail <= head then ring[tail..head] else ring[tail..] + ring[..head]
  }

  function Next(place: nat, size: nat): nat {
    if place + 1 == size then 0 else place + 1
  }

  lemma SpanFront(ring: seq<bv8>, tail: nat, head: nat)
    requires head < |ring| && tail < |ring| && tail != head
    ensures [ring[tail]] + Span(ring, Next(tail, |ring|), head) == Span(ring, tail, head)
  {
    if tail < head {
      assert ring[tail..head] == [ring[tail]] + ring[tail + 1..head];
    } else {
      assert ring[tail..] == [ring[tail]] + ring[tail + 1..];
      assert tail + 1 == |ring| ==> ring[tail + 1..] == [] && ring[0..head] == ring[..head];
    }
  }

  lemma SpanBack(ring: seq<bv8>, tail: nat, head: nat, b: bv8)
    requires head < |ring| && tail < |ring| && Next(head, |ring|) != tail
    ensures Span(ring[head := b], tail, Next(head, |ring|)) == Span(ring, tail, head) + [b]
  {
    var after := ring[head := b];
    assert after[..head + 1] == ring[..head] + [b];
    if tail <= head {
      assert after[tail..head + 1] == ring[tail..head] + [b];
      assert head + 1 == |ring| ==> after[tail..] == after[tail..head + 1] && after[..0] == [];
    } else {
      assert after[tail..] == ring[tail..];
    }
  }

  lemma MoveOne(taken: seq<bv8>, b: bv8, rest: seq<bv8>, front: seq<bv8>)
    ensures taken + ([b] + rest) == taken + [b] + rest && front + taken + [b] == front + (taken + [b])
  {
  }

  class ByteFifo {
    const buf: array<bv8>
    const size: nat
    var head: nat
    var tail: nat
    /** The bytes accepted so far and the bytes handed out so far. */
    ghost var accepted: seq<bv8>
    ghost var delivered: seq<bv8>

    ghost predicate Valid()
      reads this, buf
    {
      && 1 <= size <= buf.Length && size < 0x1_0000
      && head < size && tail < size
      && accepted == delivered + Stored()
    }

    /** The bytes between tail and head, around the end of the buffer. */
    function Stored(): (s: seq<bv8>)
      requires size <= buf.Length && head < size && tail < size
      reads this, buf
      ensures |s| == (if tail <= head then head - tail else size - tail + head) < size
    {
      Span(buf[..size], tail, head)
    }

    constructor (buffer: array<bv8>, n: nat)
      requires 1 <= n <= buffer.Length && n < 0x1_0000
      ensures Valid() && Stored() == [] && buf == buffer && size == n && accepted == []
    {
      head := 0;
      tail := 0;
      size := n;
      buf := buffer;
      accepted, delivered := [], [];
    }

    method Read(dst: array<bv8>, nbytes: nat) returns (n: nat)
      requires Valid() && nbytes <= dst.Length && nbytes < 0x1_0000 && dst != buf
      modifies this, dst
      ensures Valid() && accepted == old(accepted)
      ensures n == if nbytes < |old(Stored())| then nbytes else |old(Stored())|
      ensures dst[..n] == old(Stored())[..n] && Stored() == old(Stored())[n..]
      ensures delivered == old(delivered) + dst[..n]
    {
      hide Stored;
      ghost var was := Stored();
      var i := 0;
      assert dst[..0] == [];
      while i < nbytes
        invariant 0 <= i <= nbytes && Valid() && accepted == old(accepted)
        invariant delivered == old(delivered) + dst[..i] && dst[..i] + Stored() == was
      {
        if tail == head {
          break;
        }
        ghost var taken := dst[..i];
        var b := ReadOne();
        MoveOne(taken, b, Stored(), old(delivered));
        dst[i] := b;
        assert dst[..i + 1] == taken + [b];
        i := i + 1;
      }
      assert was[..i] == dst[..i] && was[i..] == Stored();
      return i;
    }

    method ReadOne() returns (b: bv8)
      requires Valid() && tail != head
      modifies `tail, `delivered
      ensures Valid() && [b] + Stored() == old(Stored()) && delivered == old(delivered) + [b]
    {
      hide Span;
      SpanFront(buf[..size], tail, head);
      b := buf[tail];
      tail := tail + 1;
      if tail == size {
        tail := 0;
      }
      delivered := delivered + [b];
    }

    /** Whether the head has run into the tail. */
    predicate IsFull()
      reads this
    {
      head + 1 == tail || (head + 1 == size && tail == 0)
    }

    method Write(src: array<bv8>, nbytes: nat) returns (n: nat)
      requires Valid() && nbytes <= src.Length && src != buf
      modifies this, buf
      ensures Valid() && delivered == old(delivered)
      ensures n == if nbytes < size - 1 - |old(Stored())| then nbytes else size - 1 - |old(Stored())|
      ensures Stored() == old(Stored()) + src[..n] && accepted == old(accepted) + src[..n]
    {
      hide Stored;
      var i := 0;
      assert src[..0] == [];
      while i < nbytes
        invariant 0 <= i <= nbytes && |old(Stored())| + i <= size - 1
        invariant Valid() && delivered == old(delivered)
        invariant Stored() == old(Stored()) + src[..i] && accepted == old(accepted) + src[..i]
        modifies this, buf
      {
        FullIsOneLess();
        if IsFull() {
          return i;
        }
        assert src[..i + 1] == src[..i] + [src[i]];
        WriteOne(src[i]);
        i := i + 1;
      }
      return nbytes;
    }

    method WriteOne(b: bv8)
      requires Valid() && !IsFull()
      modifies `head, `accepted, buf
      ensures Valid() && Stored() == old(Stored()) + [b] && accepted == old(accepted) + [b]
    {
      hide Span;
      SpanBack(buf[..size], tail, head, b);
      ghost var ring := buf[..size];
      buf[head] := b;
      assert buf[..size] == ring[head := b];
      head := head + 1;
      if head == size {
        head := 0;
      }
      accepted := accepted + [b];
    }

    /** The size less what is stored: one more than Write accepts. */
    method GetFree() returns (n: nat)
      requires Valid()
      ensures n == size - |Stored()|
    {
      if head < tail {
        n := tail - head;
      } else {
        n := size + tail - head;
      }
    }

    /** Full means that size - 1 bytes are stored. */
    lemma FullIsOneLess()
      requires Valid()
      ensures IsFull() <==> |Stored()| == size - 1
    {
    }
  }
}
