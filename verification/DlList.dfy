// src/common/dllist.c: a doubly linked list with a head, a tail and a count.

module DlList {

  class Node {
    var key: nat
    var data: int
    var next: Node?
    var prev: Node?

    constructor (k: nat, o: int)
      ensures key == k && data == o && next == null && prev == null
    {
      key, data, next, prev := k, o, null, null;
    }
  }

  /** Whether the nodes are linked in the order of the sequence, forwards and backwards. */
  ghost predicate Linked(nodes: seq<Node>)
    reads nodes
  {
    && (forall i, j :: 0 <= i < j < |nodes| ==> nodes[i] != nodes[j])
    && (forall i, j :: 0 <= i && j == i + 1 < |nodes| ==> nodes[i].next == nodes[j] && nodes[j].prev == nodes[i])
    && (nodes != [] ==> nodes[0].prev == null && nodes[|nodes| - 1].next == null)
  }

  function First(nodes: seq<Node>): Node? {
    if nodes == [] then null else nodes[0]
  }

  function Last(nodes: seq<Node>): Node? {
    if nodes == [] then null else nodes[|nodes| - 1]
  }

  class DoubleLinkedList {
    var sortOrder: nat
    var head: Node?
    var tail: Node?
    var count: nat
    ghost var nodes: seq<Node>

    ghost predicate Valid()
      reads this, nodes
    {
      Linked(nodes) && head == First(nodes) && tail == Last(nodes) && count == |nodes|
    }

    /** Valid but for the count. */
    ghost predicate Chained()
      reads this, nodes
    {
      Linked(nodes) && head == First(nodes) && tail == Last(nodes)
    }

    constructor (sort: nat)
      ensures Valid() && nodes == [] && sortOrder == sort
    {
      sortOrder, head, tail, count, nodes := sort, null, null, 0, [];
    }

    /** Counts the nodes and keeps the count, except for an empty list. */
    method GetNodeCount() returns (cnt: nat)
      requires Chained()
      modifies `count
      ensures cnt == |nodes| && count == if nodes == [] then old(count) else |nodes|
    {
      cnt := 0;
      var node := head;
      if node == null {
        return 0;
      }
      while node != null
        invariant 0 <= cnt <= |nodes| && node == if cnt < |nodes| then nodes[cnt] else null
        invariant Linked(nodes)
        decreases |nodes| - cnt
      {
        assert cnt < |nodes| && node == nodes[cnt];
        cnt := cnt + 1;
        node := node.next;
      }
      count := cnt;
    }

    method AddNodeHead(node: Node?) returns (ok: bool)
      requires Valid() && (node != null ==> node !in nodes)
      modifies this, node, nodes
      ensures Valid() && ok == (node != null)
      ensures nodes == if node == null then old(nodes) else [node] + old(nodes)
      ensures sortOrder == old(sortOrder) && forall n: Node {:trigger n.key} :: n in nodes ==>
              n.key == old(n.key) && n.data == old(n.data)
    {
      if node == null {
        return false;
      }
      node.next := head;
      node.prev := null;
      if head != null {
        head.prev := node;
      }
      if tail == null {
        tail := node;
      }
      head := node;
      ghost var was := nodes;
      nodes := [node] + was;
      assert nodes[0] == node && forall i :: 1 <= i < |nodes| ==> nodes[i] == was[i - 1];
      assert Linked(nodes);
      var cnt := GetNodeCount();
      return true;
    }

    method AddNodeTail(node: Node?) returns (ok: bool)
      requires Valid() && (node != null ==> node !in nodes)
      modifies this, node, nodes
      ensures Valid() && ok == (node != null)
      ensures nodes == if node == null then old(nodes) else old(nodes) + [node]
      ensures sortOrder == old(sortOrder) && forall n: Node {:trigger n.key} :: n in nodes ==>
              n.key == old(n.key) && n.data == old(n.data)
    {
      if node == null {
        return false;
      }
      node.next := null;
      node.prev := tail;
      if tail != null {
        tail.next := node;
      }
      if head == null {
        head := node;
      }
      tail := node;
      ghost var was := nodes;
      nodes := was + [node];
      assert nodes[|was|] == node && forall i :: 0 <= i < |was| ==> nodes[i] == was[i];
      assert Linked(nodes);
      var cnt := GetNodeCount();
      return true;
    }

    /** Takes the node at place i out of the list. */
    method RemoveNode(node: Node?, ghost i: nat) returns (ok: bool)
      requires Valid() && (node != null ==> i < |nodes| && nodes[i] == node)
      modifies this, nodes
      ensures Valid() && ok == (node != null)
      ensures nodes == if node == null then old(nodes) else old(nodes)[..i] + old(nodes)[i + 1..]
      ensures forall n: Node {:trigger n.key} :: n in nodes ==> n.key == old(n.key) && n.data == old(n.data)
    {
      if node == null {
        return false;
      }
      node.data := 0;
      Unlink(node, i);
      count := count - 1;
      var cnt := GetNodeCount();
      return true;
    }

    /** Makes the neighbours of the node at place i point past it. */
    method Unlink(node: Node, ghost i: nat)
      requires Chained() && i < |nodes| && nodes[i] == node
      modifies `head, `tail, `nodes, nodes`next, nodes`prev
      ensures Chained() && nodes == old(nodes)[..i] + old(nodes)[i + 1..]
    {
      ghost var was := nodes;
      assert i > 0 ==> node.prev == was[i - 1];
      assert i + 1 < |was| ==> node.next == was[i + 1];
      var next, prev := node.next, node.prev;
      if prev != null {
        prev.next := next;
      } else {
        head := next;
      }
      if next != null {
        next.prev := prev;
      } else {
        tail := prev;
      }
      nodes := was[..i] + was[i + 1..];
      assert forall j :: 0 <= j < |nodes| ==> nodes[j] == was[if j < i then j else j + 1];
    }

    method RemoveAllNodes()
      requires Valid()
      modifies this, nodes
      ensures Valid() && nodes == [] && sortOrder == 0
    {
      while head != null
        invariant Valid() && forall k :: 0 <= k < |nodes| ==> nodes[k] in old(nodes)
        decreases |nodes|
      {
        ghost var was := nodes;
        var ok := RemoveNode(tail, |nodes| - 1);
        assert forall k :: 0 <= k < |nodes| ==> nodes[k] == was[k];
      }
      sortOrder, head, tail, count := 0, null, null, 0;
    }

    /** The first node with the key. */
    method FindNodeFromID(id: nat) returns (found: Node?)
      requires Valid()
      ensures found == null ==> forall n :: n in nodes ==> n.key != id
      ensures found != null ==> exists i :: 0 <= i < |nodes| && nodes[i] == found && found.key == id &&
                                            forall j :: 0 <= j < i ==> nodes[j].key != id
    {
      var node := head;
      ghost var i := 0;
      while node != null
        invariant 0 <= i <= |nodes| && node == if i < |nodes| then nodes[i] else null
        invariant forall j :: 0 <= j < i ==> nodes[j].key != id
        decreases |nodes| - i
      {
        if node.key == id {
          return node;
        }
        node := node.next;
        i := i + 1;
      }
      return null;
    }

    /** k links forwards from the head, or backwards from the tail. */
    ghost function Ahead(k: nat): Node?
      requires Valid() && k < |nodes|
      reads this, nodes
      ensures Ahead(k) == nodes[k]
    {
      if k == 0 then head else Ahead(k - 1).next
    }

    ghost function Back(k: nat): Node?
      requires Valid() && k < |nodes|
      reads this, nodes
      ensures Back(k) == nodes[|nodes| - 1 - k]
    {
      if k == 0 then tail else Back(k - 1).prev
    }

    /** The two traversals mirror one another. */
    lemma TraversalsMirror(k: nat)
      requires Valid() && k < |nodes|
      ensures Ahead(k) == Back(|nodes| - 1 - k)
    {
    }
  }
}
