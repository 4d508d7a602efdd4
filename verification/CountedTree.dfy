// The counted search tree of src/common/sqlite3math.c: nodes inserted through links, a
// value that comes again raising a count, and iteration in increasing order.

module CountedTree {

  /** A value and how often it was inserted. */
  datatype Entry = Entry(value: int, count: int)

  function Copies(value: int, count: int): (s: seq<int>)
    ensures count >= 0 ==> |s| == count
    ensures forall i :: 0 <= i < |s| ==> s[i] == value
  {
    if count <= 0 then [] else Copies(value, count - 1) + [value]
  }

  /** The inserted values one by one. */
  function Expand(entries: seq<Entry>): seq<int> {
    if entries == [] then []
    else Expand(entries[..|entries| - 1]) + Copies(entries[|entries| - 1].value, entries[|entries| - 1].count)
  }

  ghost predicate Increasing(entries: seq<Entry>) {
    && (forall i :: 0 <= i < |entries| ==> entries[i].count > 0)
    && (forall i, j :: 0 <= i < j < |entries| ==> entries[i].value < entries[j].value)
  }

  ghost function Values(entries: seq<Entry>): set<int> {
    set i | 0 <= i < |entries| :: entries[i].value
  }

  lemma {:induction false} ExpandJoin(a: seq<Entry>, b: seq<Entry>)
    ensures Expand(a + b) == Expand(a) + Expand(b)
  {
    if b == [] {
      assert a + b == a;
    } else {
      ExpandJoin(a, b[..|b| - 1]);
      assert (a + b)[..|a + b| - 1] == a + b[..|b| - 1];
    }
  }

  lemma ExpandOne(entry: Entry)
    ensures Expand([entry]) == Copies(entry.value, entry.count)
  {
    assert [entry][..0] == [];
  }

  /** What a node and its two sides expand to. */
  lemma ExpandNode(left: seq<Entry>, entry: Entry, right: seq<Entry>)
    ensures Expand(left + [entry] + right) == Expand(left) + Copies(entry.value, entry.count) + Expand(right)
  {
    ExpandJoin(left + [entry], right);
    ExpandJoin(left, [entry]);
    ExpandOne(entry);
  }

  lemma ValuesNode(left: seq<Entry>, entry: Entry, right: seq<Entry>)
    ensures Values(left + [entry] + right) == Values(left) + {entry.value} + Values(right)
  {
    var all := left + [entry] + right;
    forall x | x in Values(left) + {entry.value} + Values(right)
      ensures x in Values(all)
    {
      if x in Values(left) {
        var i :| 0 <= i < |left| && left[i].value == x;
        assert all[i].value == x;
      } else if x == entry.value {
        assert all[|left|].value == x;
      } else {
        var i :| 0 <= i < |right| && right[i].value == x;
        assert all[|left| + 1 + i].value == x;
      }
    }
    forall x | x in Values(all)
      ensures x in Values(left) + {entry.value} + Values(right)
    {
      var i :| 0 <= i < |all| && all[i].value == x;
      if i < |left| {
        assert left[i].value == x;
      } else if i > |left| {
        assert right[i - |left| - 1].value == x;
      }
    }
  }

  ghost predicate Below(entries: seq<Entry>, value: int) {
    forall x :: x in Values(entries) ==> x < value
  }

  ghost predicate Above(entries: seq<Entry>, value: int) {
    forall x :: x in Values(entries) ==> x > value
  }

  lemma IncreasingNode(left: seq<Entry>, entry: Entry, right: seq<Entry>)
    requires Increasing(left) && Increasing(right) && entry.count > 0
    requires Below(left, entry.value) && Above(right, entry.value)
    ensures Increasing(left + [entry] + right)
  {
    assert forall i :: 0 <= i < |left| ==> left[i].value in Values(left);
    assert forall i :: 0 <= i < |right| ==> right[i].value in Values(right);
  }

  /** What inserting e does to the values and how often they occur. */
  ghost predicate Inserted(before: seq<Entry>, after: seq<Entry>, e: int) {
    multiset(Expand(after)) == multiset(Expand(before)) + multiset{e} && Values(after) == Values(before) + {e}
  }

  lemma InsertedLeft(left: seq<Entry>, after: seq<Entry>, entry: Entry, right: seq<Entry>, e: int)
    requires Inserted(left, after, e)
    ensures Inserted(left + [entry] + right, after + [entry] + right, e)
  {
    MoreOnTheLeft(Expand(left), Expand(after), Copies(entry.value, entry.count), Expand(right), e);
    hide Expand;
    ExpandNode(left, entry, right);
    ExpandNode(after, entry, right);
    ValuesNode(left, entry, right);
    ValuesNode(after, entry, right);
  }

  lemma InsertedRight(left: seq<Entry>, entry: Entry, right: seq<Entry>, after: seq<Entry>, e: int)
    requires Inserted(right, after, e)
    ensures Inserted(left + [entry] + right, left + [entry] + after, e)
  {
    hide Expand;
    ExpandNode(left, entry, right);
    ExpandNode(left, entry, after);
    ValuesNode(left, entry, right);
    ValuesNode(left, entry, after);
  }

  lemma MoreOnTheLeft(a: seq<int>, after: seq<int>, b: seq<int>, c: seq<int>, e: int)
    requires multiset(after) == multiset(a) + multiset{e}
    ensures multiset(after + b + c) == multiset(a + b + c) + multiset{e}
  {
  }

  lemma SidesKept(before: seq<Entry>, after: seq<Entry>, e: int, value: int)
    requires Inserted(before, after, e)
    ensures e < value && Below(before, value) ==> Below(after, value)
    ensures e > value && Above(before, value) ==> Above(after, value)
  {
  }

  lemma InsertedHere(left: seq<Entry>, value: int, count: nat, right: seq<Entry>)
    requires count > 0
    ensures Inserted(left + [Entry(value, count)] + right, left + [Entry(value, count + 1)] + right, value)
  {
    ExpandNode(left, Entry(value, count), right);
    ExpandNode(left, Entry(value, count + 1), right);
    ValuesNode(left, Entry(value, count), right);
    ValuesNode(left, Entry(value, count + 1), right);
    assert Copies(value, count + 1) == Copies(value, count) + [value];
    OneMore(Expand(left), Copies(value, count), value, Expand(right));
  }

  lemma OneMore(a: seq<int>, b: seq<int>, value: int, c: seq<int>)
    ensures multiset(a + (b + [value]) + c) == multiset(a + b + c) + multiset{value}
  {
  }

  lemma InsertedFirst(e: int)
    ensures Inserted([], [Entry(e, 1)], e)
  {
    ExpandOne(Entry(e, 1));
    assert Copies(e, 1) == Copies(e, 0) + [e];
    ValuesNode([], Entry(e, 1), []);
    assert [] + [Entry(e, 1)] + [] == [Entry(e, 1)];
  }

  // ----- The tree

  class Node {
    var l: Node?
    var r: Node?
    var data: int
    var count: int
    ghost var repr: set<Node>

    constructor (e: int)
      ensures Valid() && fresh(repr) && Entries() == [Entry(e, 1)]
    {
      l := null;
      r := null;
      data := e;
      count := 1;
      repr := {this};
    }

    ghost predicate Valid()
      reads this, repr
      ensures Valid() ==> this in repr
      decreases repr, 0
    {
      && this in repr
      && (l != null ==> l in repr && l.repr <= repr && this !in l.repr && l.Valid() && Below(l.Entries(), data))
      && (r != null ==> r in repr && r.repr <= repr && this !in r.repr && r.Valid() && Above(r.Entries(), data))
      && (l != null && r != null ==> l.repr !! r.repr)
      && count > 0
    }

    /** The entries of the tree in the order of its links. */
    ghost function Entries(): seq<Entry>
      requires Valid()
      reads this, repr
      decreases repr, 1
    {
      (if l == null then [] else l.Entries()) + [Entry(data, count)] + (if r == null then [] else r.Entries())
    }
  }

  ghost predicate ValidTree(n: Node?)
    reads n, if n == null then {} else n.repr
  {
    n == null || n.Valid()
  }

  ghost function TreeEntries(n: Node?): seq<Entry>
    requires ValidTree(n)
    reads n, if n == null then {} else n.repr
  {
    if n == null then [] else n.Entries()
  }

  ghost function Footprint(n: Node?): set<Node>
    reads n
  {
    if n == null then {} else n.repr
  }

  /** The conditions of Valid and the value of Entries, one level down. */
  ghost predicate Joined(n: Node)
    reads n, n.repr
  {
    && n in n.repr && n.count > 0
    && (n.l != null ==> n.l in n.repr && n.l.repr <= n.repr && n !in n.l.repr && n.l.Valid())
    && (n.r != null ==> n.r in n.repr && n.r.repr <= n.repr && n !in n.r.repr && n.r.Valid())
    && (n.l != null && n.r != null ==> n.l.repr !! n.r.repr)
    && Below(TreeEntries(n.l), n.data) && Above(TreeEntries(n.r), n.data)
  }

  lemma JoinedIsValid(n: Node)
    ensures Joined(n) <==> n.Valid()
    ensures n.Valid() ==> n.Entries() == TreeEntries(n.l) + [Entry(n.data, n.count)] + TreeEntries(n.r)
  {
  }

  /** A valid tree is strictly ordered, with positive counts. */
  lemma {:induction false} TreeIncreasing(n: Node?)
    requires ValidTree(n)
    ensures Increasing(TreeEntries(n))
    decreases Footprint(n)
  {
    if n != null {
      TreeIncreasing(n.l);
      TreeIncreasing(n.r);
      assert Below([], n.data) && Above([], n.data);
      IncreasingNode(TreeEntries(n.l), Entry(n.data, n.count), TreeEntries(n.r));
    }
  }

  /** Inserts through a link: the result is what the link holds afterwards. */
  method NodeInsert(n: Node?, e: int) returns (link: Node)
    requires ValidTree(n)
    modifies Footprint(n)
    ensures link.Valid() && fresh(link.repr - old(Footprint(n))) && (n != null ==> link == n)
    ensures Inserted(old(TreeEntries(n)), link.Entries(), e)
    decreases Footprint(n), 1
  {
    hide Inserted, Expand, Increasing, Below, Above, Values;
    if n == null {
      InsertedFirst(e);
      link := new Node(e);
    } else {
      link := n;
      if n.data == e {
        InsertedHere(TreeEntries(n.l), e, n.count, TreeEntries(n.r));
        n.count := n.count + 1;
      } else if n.data > e {
        InsertLeft(n, e);
      } else {
        InsertRight(n, e);
      }
    }
  }

  method InsertLeft(n: Node, e: int)
    requires n.Valid() && n.data > e
    modifies n.repr
    ensures n.Valid() && fresh(n.repr - old(n.repr))
    ensures Inserted(old(n.Entries()), n.Entries(), e)
    decreases n.repr, 0
  {
    hide Inserted, Expand, Below, Above, Values, Node.Valid, Node.Entries;
    JoinedIsValid(n);
    ghost var left, right := TreeEntries(n.l), TreeEntries(n.r);
    var child := NodeInsert(n.l, e);
    n.l := child;
    n.repr := n.repr + child.repr;
    SidesKept(left, child.Entries(), e, n.data);
    InsertedLeft(left, child.Entries(), Entry(n.data, n.count), right, e);
    JoinedIsValid(n);
  }

  method InsertRight(n: Node, e: int)
    requires n.Valid() && n.data < e
    modifies n.repr
    ensures n.Valid() && fresh(n.repr - old(n.repr))
    ensures Inserted(old(n.Entries()), n.Entries(), e)
    decreases n.repr, 0
  {
    hide Inserted, Expand, Below, Above, Values, Node.Valid, Node.Entries;
    JoinedIsValid(n);
    ghost var left, right := TreeEntries(n.l), TreeEntries(n.r);
    var child := NodeInsert(n.r, e);
    n.r := child;
    n.repr := n.repr + child.repr;
    SidesKept(right, child.Entries(), e, n.data);
    InsertedRight(left, Entry(n.data, n.count), right, child.Entries(), e);
    JoinedIsValid(n);
  }

  class Map {
    var base: Node?

    constructor ()
      ensures Valid() && base == null
    {
      base := null;
    }

    ghost predicate Valid()
      reads this, base, Footprint(base)
    {
      ValidTree(base)
    }

    ghost function Entries(): seq<Entry>
      requires Valid()
      reads this, base, Footprint(base)
    {
      TreeEntries(base)
    }

    method Insert(e: int)
      requires Valid()
      modifies this, Footprint(base)
      ensures Valid() && fresh(Footprint(base) - old(Footprint(base)))
      ensures Inserted(old(Entries()), Entries(), e)
    {
      hide Inserted, Expand, Increasing, Below, Above, Values;
      var link := NodeInsert(base, e);
      base := link;
    }
  }
}
