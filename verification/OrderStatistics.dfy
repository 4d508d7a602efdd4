// The SQL aggregates mode, median, lower_quartile and upper_quartile of
// src/common/sqlite3math.c on integers: one pass in order over the counted tree.

module OrderStatistics {
  import opened CountedTree

  // ----- What the aggregates are for

  ghost predicate IsSorted(s: seq<int>) {
    forall i, j :: 0 <= i <= j < |s| ==> s[i] <= s[j]
  }

  lemma WithoutLast(s: seq<int>)
    requires s != []
    ensures multiset(s) == multiset(s[..|s| - 1]) + multiset{s[|s| - 1]}
  {
    assert s == s[..|s| - 1] + [s[|s| - 1]];
  }

  lemma LastIsGreatest(s: seq<int>, t: seq<int>)
    requires IsSorted(s) && multiset(s) == multiset(t) && s != [] && t != []
    ensures t[|t| - 1] <= s[|s| - 1]
  {
    assert t[|t| - 1] in multiset(s);
  }

  /** There is one way to write a multiset in increasing order. */
  lemma {:induction false} SortedIsUnique(s: seq<int>, t: seq<int>)
    requires IsSorted(s) && IsSorted(t) && multiset(s) == multiset(t)
    ensures s == t
  {
    assert |s| == |multiset(s)| == |multiset(t)| == |t|;
    if s != [] {
      var n := |s| - 1;
      LastIsGreatest(s, t);
      LastIsGreatest(t, s);
      WithoutLast(s);
      WithoutLast(t);
      Cancel(multiset(s[..n]), multiset(t[..n]), s[n]);
      FrontSorted(s);
      FrontSorted(t);
      SortedIsUnique(s[..n], t[..n]);
      assert s == s[..n] + [s[n]] && t == t[..n] + [t[n]];
    }
  }

  lemma Cancel(a: multiset<int>, b: multiset<int>, x: int)
    requires a + multiset{x} == b + multiset{x}
    ensures a == b
  {
    assert forall y :: (a + multiset{x})[y] == a[y] + multiset{x}[y];
    assert forall y :: (b + multiset{x})[y] == b[y] + multiset{x}[y];
  }

  lemma FrontSorted(s: seq<int>)
    requires IsSorted(s) && s != []
    ensures IsSorted(s[..|s| - 1])
  {
  }

  function LowPlace(n: int, k: int): int {
    (n * k - 1) / 4
  }

  function HighPlace(n: int, k: int): int {
    n * k / 4
  }

  lemma InRange(n: int, k: int)
    requires 1 <= k <= 3 && 0 < n
    ensures 0 <= LowPlace(n, k) <= HighPlace(n, k) < n && HighPlace(n, k) <= LowPlace(n, k) + 1
  {
    assert 1 <= n * k <= 3 * n;
  }

  /** The quantile k/4 of values in order, when each is read as Read reads it. */
  function Quantile(s: seq<int>, k: int): Result
    requires 1 <= k <= 3 && |s| > 0
  {
    InRange(|s|, k);
    var low, high := s[LowPlace(|s|, k)], s[HighPlace(|s|, k)];
    if low == high then Int64(ToInt(low)) else Double((ToInt(low) + ToInt(high)) as real / 2.0)
  }

  ghost predicate IsMode(values: seq<int>, v: int) {
    v in values && forall w :: w in values && w != v ==> multiset(values)[w] < multiset(values)[v]
  }

  // ----- Integers of the C types

  /** Conversion to a 32-bit int; also what is read through int* from a 64-bit integer. */
  function ToInt(x: int): (r: int)
    ensures -0x8000_0000 <= r < 0x8000_0000
    ensures r == x <==> -0x8000_0000 <= x < 0x8000_0000
  {
    (x + 0x8000_0000) % 0x1_0000_0000 - 0x8000_0000
  }

  /** How many times 2^32 the reading differs from the value. */
  function Wraps(x: int): int {
    (x + 0x8000_0000) / 0x1_0000_0000
  }

  const INT_LIMIT := 0x8000_0000

  datatype Result = NoResult | Int64(value: int) | Double(number: real)

  // ----- The iterators

  datatype Iterator = ModeIterator | MedianIterator(cnt: int, pcnt: real)

  /** The fields of ModeCtx that an iterator changes. */
  datatype Progress = Progress(riM: int, mcnt: int, mn: int, done: int)

  const START := Progress(0, 0, 0, 0)

  function Apply(it: Iterator, p: Progress, e: Entry): Progress {
    match it
    case ModeIterator =>
      if p.mcnt == e.count then p.(mn := p.mn + 1)
      else if p.mcnt < e.count then Progress(ToInt(e.value), e.count, 1, p.done)
      else p
    case MedianIterator(cnt, pcnt) =>
      if p.done > 0 then p
      else
        var enough := ToInt(p.mcnt + e.count) as real >= pcnt;
        var early := ToInt(cnt - p.mcnt) as real >= cnt as real - pcnt;
        Progress(if enough && early then p.riM + ToInt(e.value) else p.riM, p.mcnt + e.count,
                 if enough && early then p.mn + 1 else p.mn, if enough && !early then 1 else p.done)
  }

  function Fold(it: Iterator, p: Progress, entries: seq<Entry>): Progress {
    if entries == [] then p else Apply(it, Fold(it, p, entries[..|entries| - 1]), entries[|entries| - 1])
  }

  lemma {:induction false} FoldJoin(it: Iterator, p: Progress, a: seq<Entry>, b: seq<Entry>)
    ensures Fold(it, p, a + b) == Fold(it, Fold(it, p, a), b)
  {
    if b == [] {
      assert a + b == a;
    } else {
      FoldJoin(it, p, a, b[..|b| - 1]);
      assert (a + b)[..|a + b| - 1] == a + b[..|b| - 1];
    }
  }

  // ----- The expanded tree

  lemma {:induction false} ExpandMembers(entries: seq<Entry>, x: int)
    requires Increasing(entries)
    ensures x in Expand(entries) <==> x in Values(entries)
  {
    if entries != [] {
      var n := |entries| - 1;
      var front, last := entries[..n], entries[n];
      ExpandMembers(front, x);
      assert Copies(last.value, last.count)[0] == last.value;
      assert entries == front + [last] + [];
      ValuesNode(front, last, []);
    }
  }

  lemma LastIsAbove(entries: seq<Entry>, x: int)
    requires Increasing(entries) && entries != [] && x in Values(entries[..|entries| - 1])
    ensures x < entries[|entries| - 1].value
  {
  }

  lemma {:induction false} ExpandSorted(entries: seq<Entry>)
    requires Increasing(entries)
    ensures IsSorted(Expand(entries))
  {
    if entries != [] {
      var n := |entries| - 1;
      var front, last := entries[..n], entries[n];
      ExpandSorted(front);
      forall x | x in Expand(front)
        ensures x < last.value
      {
        ExpandMembers(front, x);
        LastIsAbove(entries, x);
      }
      SortedThenCopies(Expand(front), last.value, last.count);
    }
  }

  lemma SortedThenCopies(s: seq<int>, value: int, count: int)
    requires IsSorted(s) && forall x :: x in s ==> x < value
    ensures IsSorted(s + Copies(value, count))
  {
    var t := s + Copies(value, count);
    forall i, j | 0 <= i <= j < |t|
      ensures t[i] <= t[j]
    {
      if i < |s| {
        assert s[i] in s;
      }
    }
  }

  lemma {:induction false} CopiesCounted(value: int, count: nat, x: int)
    ensures multiset(Copies(value, count))[x] == if x == value then count else 0
  {
    if count > 0 {
      CopiesCounted(value, count - 1, x);
    }
  }

  /** How often x occurs. */
  function Times(s: seq<int>, x: int): nat {
    multiset(s)[x]
  }

  lemma ExpandCount(entries: seq<Entry>, x: int)
    requires entries != [] && entries[|entries| - 1].count > 0
    ensures var e := entries[|entries| - 1];
            Times(Expand(entries), x) == Times(Expand(entries[..|entries| - 1]), x) + if x == e.value then e.count
              else 0
  {
    var e := entries[|entries| - 1];
    CopiesCounted(e.value, e.count, x);
    var a, b := Expand(entries[..|entries| - 1]), Copies(e.value, e.count);
    assert multiset(a + b) == multiset(a) + multiset(b);
  }

  /** The count of an entry is how often its value occurs. */
  lemma {:induction false} Multiplicity(entries: seq<Entry>, i: nat)
    requires Increasing(entries) && i < |entries|
    ensures Times(Expand(entries), entries[i].value) == entries[i].count
  {
    var n := |entries| - 1;
    IncreasingFront(entries);
    assert i < n ==> entries[i].value != entries[n].value && entries[..n][i] == entries[i];
    hide Expand, Values, Increasing, Times;
    ExpandCount(entries, entries[i].value);
    if i < n {
      Multiplicity(entries[..n], i);
    } else {
      LastIsNew(entries);
    }
  }

  lemma IncreasingFront(entries: seq<Entry>)
    requires Increasing(entries) && entries != []
    ensures Increasing(entries[..|entries| - 1]) && entries[|entries| - 1].count > 0
  {
  }

  lemma LastIsNew(entries: seq<Entry>)
    requires Increasing(entries) && entries != []
    ensures Times(Expand(entries[..|entries| - 1]), entries[|entries| - 1].value) == 0
  {
    hide Expand;
    var front, x := entries[..|entries| - 1], entries[|entries| - 1].value;
    ExpandMembers(front, x);
    assert x !in Expand(front);
    assert x !in multiset(Expand(front));
  }

  // ----- Median and quartiles

  // The iterator converts two counts to int: how many values are at most the one it is at,
  // and how many are at least that.

  function AtMost(s: seq<int>, v: int): nat {
    if s == [] then 0 else AtMost(s[..|s| - 1], v) + if s[|s| - 1] <= v then 1 else 0
  }

  function AtLeast(s: seq<int>, v: int): nat {
    if s == [] then 0 else AtLeast(s[..|s| - 1], v) + if s[|s| - 1] >= v then 1 else 0
  }

  /** Both counts of the value fit an int. */
  predicate CountsFit(s: seq<int>, v: int) {
    AtMost(s, v) < INT_LIMIT && AtLeast(s, v) < INT_LIMIT
  }

  /** The counts of the values that the quantile k/4 is made of fit an int. */
  predicate Counted(s: seq<int>, k: int)
    requires 1 <= k <= 3 && |s| > 0
  {
    InRange(|s|, k);
    CountsFit(s, s[LowPlace(|s|, k)]) && CountsFit(s, s[HighPlace(|s|, k)])
  }

  lemma {:induction false} AtMostIs(s: seq<int>, v: int, m: nat)
    requires m <= |s| && forall i :: 0 <= i < |s| ==> (s[i] <= v <==> i < m)
    ensures AtMost(s, v) == m
  {
    if s != [] {
      AtMostIs(s[..|s| - 1], v, if m == |s| then m - 1 else m);
    }
  }

  lemma {:induction false} AtLeastIs(s: seq<int>, v: int, m: nat)
    requires m <= |s| && forall i :: 0 <= i < |s| ==> (s[i] >= v <==> i >= m)
    ensures AtLeast(s, v) == |s| - m
  {
    if s != [] {
      AtLeastIs(s[..|s| - 1], v, if m == |s| then m - 1 else m);
    }
  }

  lemma {:induction false} CountsBounded(s: seq<int>, v: int)
    ensures AtMost(s, v) <= |s| && AtLeast(s, v) <= |s|
  {
    if s != [] {
      CountsBounded(s[..|s| - 1], v);
    }
  }

  /** Fewer than 2^31 values are always counted. */
  lemma FewAreCounted(s: seq<int>, k: int)
    requires 1 <= k <= 3 && 0 < |s| < INT_LIMIT
    ensures Counted(s, k)
  {
    InRange(|s|, k);
    hide LowPlace, HighPlace, AtMost, AtLeast;
    CountsBounded(s, s[LowPlace(|s|, k)]);
    CountsBounded(s, s[HighPlace(|s|, k)]);
  }

  /** 2^31 copies of one value are not, nor are more. */
  lemma CopiesAreNot(s: seq<int>, v: int, k: int)
    requires 1 <= k <= 3 && |s| >= INT_LIMIT && forall i :: 0 <= i < |s| ==> s[i] == v
    ensures !Counted(s, k)
  {
    InRange(|s|, k);
    hide LowPlace, HighPlace, AtMost, AtLeast;
    AtMostIs(s, v, |s|);
  }

  /** Sum and number of the values found when the entries passed hold the first b of s. The upper value is
      found only after the lower one. */
  function Found(s: seq<int>, low: nat, high: nat, b: nat): (int, int)
    requires low <= high < |s|
  {
    if b <= low || !CountsFit(s, s[low]) then (0, 0)
    else if b <= high || s[low] == s[high] || !CountsFit(s, s[high]) then (ToInt(s[low]), 1)
    else (ToInt(s[low]) + ToInt(s[high]), 2)
  }

  /** What the pass holds with the first b values passed. When the lower value was missed, either the pass has
      stopped or so many values are passed that no count fits any more. */
  ghost predicate Reached(s: seq<int>, k: int, b: nat, p: Progress)
    requires 1 <= k <= 3 && |s| > 0
  {
    InRange(|s|, k);
    var low, high := LowPlace(|s|, k), HighPlace(|s|, k);
    var missed := b > low && !CountsFit(s, s[low]);
    && (p.riM, p.mn) == Found(s, low, high, b)
    && (if p.done > 0 then b > high || missed else p.mcnt == b && (missed ==> b >= INT_LIMIT))
  }

  /** The percentile that the pass looks for. */
  function MedianPass(n: int, k: int): Iterator {
    MedianIterator(n, (n * k) as real / 4.0)
  }

  lemma ToIntBounds(x: nat)
    ensures ToInt(x) <= x && (x < INT_LIMIT ==> ToInt(x) == x) && (INT_LIMIT <= x < 2 * INT_LIMIT ==> ToInt(x) < 0)
  {
  }

  /** The two comparisons of the median iterator, in whole numbers. Neither holds wrongly, and
      both together hold exactly for a selected value whose counts fit. */
  lemma Comparisons(n: int, k: int, b: int, c: int)
    requires 1 <= k <= 3 && 0 < n && 0 <= b && c > 0 && b + c <= n
    ensures var enough := ToInt(b + c) as real >= MedianPass(n, k).pcnt;
            var early := ToInt(n - b) as real >= n as real - MedianPass(n, k).pcnt;
            (enough ==> b + c > LowPlace(n, k)) && (early ==> b <= HighPlace(n, k)) &&
            (b + c < INT_LIMIT && b + c > LowPlace(n, k) ==> enough) &&
            (enough && early <==>
             b + c > LowPlace(n, k) && b <= HighPlace(n, k) && b + c < INT_LIMIT && n - b < INT_LIMIT)
  {
    ToIntBounds(b + c);
    ToIntBounds(n - b);
    hide ToInt;
    QuarterOf(n * k, ToInt(b + c));
    QuarterOf(n * k, n - ToInt(n - b));
    InRange(n, k);
    hide LowPlace, HighPlace;
    if n >= 2 * INT_LIMIT {
      WrappedCounts(n, k, b, c);
    }
  }

  /** A count that wraps to a number that is not negative belongs to so many values that no value is selected. */
  lemma WrappedCounts(n: int, k: int, b: int, c: int)
    requires 1 <= k <= 3 && n >= 2 * INT_LIMIT
    ensures ToInt(b + c) <= LowPlace(n, k) || n - ToInt(n - b) > HighPlace(n, k)
  {
    hide ToInt;
  }

  lemma QuarterOf(m: int, x: int)
    ensures x as real >= m as real / 4.0 <==> x > (m - 1) / 4
    ensures x as real <= m as real / 4.0 <==> x <= m / 4
  {
    assert 4.0 * (m as real / 4.0) == m as real;
    assert (4 * x) as real == 4.0 * x as real;
  }

  /** The entry e follows b smaller values, and greater ones follow it. */
  ghost predicate StandsAfter(s: seq<int>, b: nat, e: Entry) {
    && e.count > 0 && b + e.count <= |s|
    && (forall i :: 0 <= i < b ==> s[i] < e.value)
    && (forall i :: b <= i < b + e.count ==> s[i] == e.value)
    && (forall i :: b + e.count <= i < |s| ==> s[i] > e.value)
  }

  lemma CountsOf(s: seq<int>, b: nat, e: Entry)
    requires StandsAfter(s, b, e)
    ensures CountsFit(s, e.value) <==> b + e.count < INT_LIMIT && |s| - b < INT_LIMIT
  {
    AtMostIs(s, e.value, b + e.count);
    AtLeastIs(s, e.value, b);
  }

  /** One step of the median iterator. */
  lemma MedianStep(s: seq<int>, k: int, b: nat, e: Entry, p: Progress, q: Progress)
    requires 1 <= k <= 3 && |s| > 0 && StandsAfter(s, b, e) && Reached(s, k, b, p)
    requires q == Apply(MedianPass(|s|, k), p, e)
    ensures Reached(s, k, b + e.count, q)
  {
    InRange(|s|, k);
    var n, low, high := |s|, LowPlace(|s|, k), HighPlace(|s|, k);
    Comparisons(n, k, b, e.count);
    CountsOf(s, b, e);
    hide LowPlace, HighPlace, ToInt, CountsFit;
    SelectedHere(s, low, high, b, e);
    FoundStep(s, low, high, b, e);
    hide Found, StandsAfter, MedianPass;
  }

  /** An entry over a selected place has the selected value. */
  lemma SelectedHere(s: seq<int>, low: nat, high: nat, b: nat, e: Entry)
    requires low <= high < |s| && high <= low + 1 && StandsAfter(s, b, e)
    ensures b <= low < b + e.count ==> s[low] == e.value
    ensures b <= high < b + e.count ==> s[high] == e.value
  {
  }

  /** The values found after one more entry. */
  lemma FoundStep(s: seq<int>, low: nat, high: nat, b: nat, e: Entry)
    requires low <= high < |s| && high <= low + 1 && StandsAfter(s, b, e)
    ensures var (sum, number) := Found(s, low, high, b);
            Found(s, low, high, b + e.count) ==
            if b + e.count > low && b <= high && CountsFit(s, e.value) && (b > low ==> CountsFit(s, s[low]))
            then (sum + ToInt(e.value), number + 1) else (sum, number)
  {
    hide ToInt, CountsFit;
    SelectedHere(s, low, high, b, e);
    if low < b <= high {
      assert b == high && s[b - 1] == s[low] && s[b] == e.value;
    }
    if b <= low && b + e.count == high {
      assert s[high] > e.value;
    }
  }

  lemma {:induction false} MedianFold(entries: seq<Entry>, k: int, m: nat)
    requires Increasing(entries) && 1 <= k <= 3 && m <= |entries| && |Expand(entries)| > 0
    ensures var s := Expand(entries);
            Reached(s, k, |Expand(entries[..m])|, Fold(MedianPass(|s|, k), START, entries[..m]))
  {
    var s := Expand(entries);
    hide LowPlace, HighPlace, MedianPass, CountsFit;
    if m == 0 {
      InRange(|s|, k);
      assert entries[..0] == [];
    } else {
      MedianFold(entries, k, m - 1);
      var p, q := Fold(MedianPass(|s|, k), START, entries[..m - 1]), Fold(MedianPass(|s|, k), START, entries[..m]);
      assert entries[..m][..m - 1] == entries[..m - 1];
      assert q == Apply(MedianPass(|s|, k), p, entries[m - 1]);
      hide Expand, Apply, Reached, Increasing, Fold, StandsAfter;
      PrefixStep(entries, m);
      MedianStep(s, k, |Expand(entries[..m - 1])|, entries[m - 1], p, q);
    }
  }

  /** Entry m - 1 fills the places after the entries before it. */
  lemma PrefixStep(entries: seq<Entry>, m: int)
    requires Increasing(entries) && 0 < m <= |entries|
    ensures var b := |Expand(entries[..m - 1])|;
            |Expand(entries[..m])| == b + entries[m - 1].count && StandsAfter(Expand(entries), b, entries[m - 1])
  {
    var e, front, back := entries[m - 1], entries[..m - 1], entries[m..];
    Around(entries, m);
    ExpandNode(front, e, back);
    ExpandNode(front, e, []);
    NothingExpanded();
    hide Expand, Increasing, Copies;
    forall x | x in Expand(front)
      ensures x < e.value
    {
      ExpandMembers(front, x);
    }
    forall x | x in Expand(back)
      ensures x > e.value
    {
      ExpandMembers(back, x);
    }
    Between(Expand(front), Copies(e.value, e.count), Expand(back), e);
  }

  lemma Around(entries: seq<Entry>, m: int)
    requires Increasing(entries) && 0 < m <= |entries|
    ensures var e, front, back := entries[m - 1], entries[..m - 1], entries[m..];
            entries == front + [e] + back && entries[..m] == front + [e] + [] && e.count > 0 &&
            Increasing(front) && Increasing(back) &&
            (forall x :: x in Values(front) ==> x < e.value) && (forall x :: x in Values(back) ==> x > e.value)
  {
  }

  lemma Between(front: seq<int>, copies: seq<int>, back: seq<int>, e: Entry)
    requires |copies| == e.count > 0 && forall i :: 0 <= i < |copies| ==> copies[i] == e.value
    requires (forall x :: x in front ==> x < e.value) && (forall x :: x in back ==> x > e.value)
    ensures StandsAfter(front + copies + back, |front|, e)
  {
    var s := front + copies + back;
    forall i | 0 <= i < |front|
      ensures s[i] < e.value
    {
      assert s[i] == front[i] && front[i] in front;
    }
    forall i | |front| + e.count <= i < |s|
      ensures s[i] > e.value
    {
      assert s[i] == back[i - |front| - e.count] && back[i - |front| - e.count] in back;
    }
  }

  /** The pass finds the quantile exactly when the counts fit; else the lower value or nothing. */
  lemma QuantileFound(entries: seq<Entry>, k: int)
    requires Increasing(entries) && 1 <= k <= 3 && |Expand(entries)| > 0
    ensures var s := Expand(entries);
            var p := Fold(MedianPass(|s|, k), START, entries);
            IsFound(s, k, MedianResult(p.riM, p.mn))
  {
    hide Expand, Increasing, Fold, ToInt, LowPlace, HighPlace, CountsFit;
    InRange(|Expand(entries)|, k);
    MedianFold(entries, k, |entries|);
    assert entries[..|entries|] == entries;
  }

  /** The quantile when its values are counted; else the lower one of two values when that is counted, and no
      result when it is not. */
  ghost predicate IsFound(s: seq<int>, k: int, result: Result)
    requires 1 <= k <= 3 && |s| > 0
  {
    InRange(|s|, k);
    if Counted(s, k) then result == Quantile(s, k)
    else
      var low := s[LowPlace(|s|, k)];
      result == if CountsFit(s, low) then Int64(ToInt(low)) else NoResult
  }

  /** The result that the percentile functions give at the end. */
  function MedianResult(riM: int, mn: int): Result {
    if mn == 1 then Int64(riM) else if mn == 0 then NoResult else Double(riM as real / mn as real)
  }

  // ----- Mode

  ghost predicate Leads(entries: seq<Entry>, p: Progress) {
    && (forall i :: 0 <= i < |entries| ==> entries[i].count <= p.mcnt)
    && (entries == [] ==> p == START)
    && (entries != [] ==> exists i :: 0 <= i < |entries| && First(entries, p, i))
  }

  /** Entry i is the first with the highest count, and p.mn tells whether it is the only one. */
  ghost predicate First(entries: seq<Entry>, p: Progress, i: nat)
    requires i < |entries|
  {
    && entries[i].count == p.mcnt && p.riM == ToInt(entries[i].value) && p.mn >= 1
    && (p.mn == 1 ==> forall j :: 0 <= j < |entries| && j != i ==> entries[j].count < p.mcnt)
    && (p.mn > 1 ==> exists j :: 0 <= j < |entries| && j != i && entries[j].count == p.mcnt)
  }

  lemma LeadsNext(front: seq<Entry>, e: Entry, p: Progress)
    requires Leads(front, p) && e.count > 0
    ensures Leads(front + [e], Apply(ModeIterator, p, e))
  {
    hide ToInt;
    var all, q := front + [e], Apply(ModeIterator, p, e);
    var n := |front|;
    if front == [] || p.mcnt < e.count {
      assert First(all, q, n);
    } else {
      var i :| 0 <= i < |front| && First(front, p, i);
      if p.mcnt == e.count {
        assert all[n].count == q.mcnt && n != i;
      } else if p.mn > 1 {
        var j :| 0 <= j < |front| && j != i && front[j].count == p.mcnt;
        assert all[j].count == q.mcnt;
      }
      assert First(all, q, i);
    }
  }

  lemma {:induction false} ModeFold(entries: seq<Entry>)
    requires Increasing(entries)
    ensures Leads(entries, Fold(ModeIterator, START, entries))
  {
    if entries != [] {
      var n := |entries| - 1;
      ModeFold(entries[..n]);
      hide Apply, Leads;
      LeadsNext(entries[..n], entries[n], Fold(ModeIterator, START, entries[..n]));
      assert entries == entries[..n] + [entries[n]];
    }
  }

  ghost predicate Occurs(entries: seq<Entry>, values: seq<int>) {
    && (forall i :: 0 <= i < |entries| ==>
        entries[i].value in values && multiset(values)[entries[i].value] == entries[i].count)
    && (forall x :: x in values ==> exists i :: 0 <= i < |entries| && entries[i].value == x)
  }

  lemma EntriesOccur(entries: seq<Entry>, values: seq<int>)
    requires Increasing(entries) && multiset(Expand(entries)) == multiset(values)
    ensures Occurs(entries, values)
  {
    hide Expand;
    forall i | 0 <= i < |entries|
      ensures entries[i].value in values && multiset(values)[entries[i].value] == entries[i].count
    {
      Multiplicity(entries, i);
      assert entries[i].value in multiset(values);
    }
    forall x | x in values
      ensures exists i :: 0 <= i < |entries| && entries[i].value == x
    {
      assert x in multiset(Expand(entries));
      ExpandMembers(entries, x);
    }
  }

  lemma LeaderIsMode(entries: seq<Entry>, values: seq<int>, p: Progress, i: nat)
    requires Increasing(entries) && Occurs(entries, values) && Leads(entries, p)
    requires i < |entries| && First(entries, p, i)
    ensures p.mn == 1 ==> IsMode(values, entries[i].value)
    ensures forall v :: IsMode(values, v) ==> v == entries[i].value && p.mn == 1
  {
    forall v | IsMode(values, v)
      ensures v == entries[i].value && p.mn == 1
    {
      var j :| 0 <= j < |entries| && entries[j].value == v;
      assert multiset(values)[v] == entries[j].count;
    }
  }

  /** The pass finds the mode exactly when there is one. */
  lemma ModeFound(entries: seq<Entry>, values: seq<int>)
    requires Increasing(entries) && multiset(Expand(entries)) == multiset(values)
    ensures var p := Fold(ModeIterator, START, entries);
            (p.mn == 1 <==> exists v :: IsMode(values, v)) &&
            (forall v :: IsMode(values, v) ==> p.riM == ToInt(v))
  {
    var p := Fold(ModeIterator, START, entries);
    hide Expand, Fold, ToInt, Increasing;
    ModeFold(entries);
    EntriesOccur(entries, values);
    if entries != [] {
      var i :| 0 <= i < |entries| && First(entries, p, i);
      LeaderIsMode(entries, values, p, i);
    }
  }
  // ----- When the answers are right

  /** The quantile of the values themselves. */
  function TrueQuantile(s: seq<int>, k: int): Result
    requires 1 <= k <= 3 && |s| > 0
  {
    InRange(|s|, k);
    var low, high := s[LowPlace(|s|, k)], s[HighPlace(|s|, k)];
    if low == high then Int64(low) else Double((low + high) as real / 2.0)
  }

  predicate FitsInt(x: int) {
    -0x8000_0000 <= x < 0x8000_0000
  }

  /** The median lies between the two middle values. */
  lemma MedianPlaces(n: nat)
    requires n > 0
    ensures LowPlace(n, 2) == (n - 1) / 2 && HighPlace(n, 2) == n / 2
  {
  }

  /** The values that the quantile is made of are read as themselves, or their wraps cancel. */
  predicate ReadsTrue(s: seq<int>, k: int)
    requires 1 <= k <= 3 && |s| > 0
  {
    InRange(|s|, k);
    var low, high := s[LowPlace(|s|, k)], s[HighPlace(|s|, k)];
    if low == high then FitsInt(low) else Wraps(low) + Wraps(high) == 0
  }

  lemma ReadingWraps(x: int)
    ensures ToInt(x) == x - 0x1_0000_0000 * Wraps(x)
  {
  }

  /** The quantile of the readings is that of the values exactly then. */
  lemma QuantileIsTrue(s: seq<int>, k: int)
    requires 1 <= k <= 3 && |s| > 0
    ensures Quantile(s, k) == TrueQuantile(s, k) <==> ReadsTrue(s, k)
  {
    InRange(|s|, k);
    var low, high := s[LowPlace(|s|, k)], s[HighPlace(|s|, k)];
    ReadingWraps(low);
    ReadingWraps(high);
    hide LowPlace, HighPlace, ToInt, Wraps;
    HalvesDiffer(ToInt(low) + ToInt(high), low + high);
  }

  lemma HalvesDiffer(a: int, b: int)
    ensures a as real / 2.0 == b as real / 2.0 <==> a == b
  {
  }

  /** A result is the true quantile exactly when its values are counted and read as themselves. */
  lemma ResultIsTrue(s: seq<int>, k: int, result: Result)
    requires 1 <= k <= 3 && |s| > 0 && IsFound(s, k, result)
    ensures result == Quantile(s, k) <==> Counted(s, k)
    ensures result == TrueQuantile(s, k) <==> Counted(s, k) && ReadsTrue(s, k)
  {
    InRange(|s|, k);
    QuantileIsTrue(s, k);
    hide LowPlace, HighPlace, ToInt, Counted, ReadsTrue;
  }

  /** Two values that do not fit an int can still have their true median. */
  lemma WrapsCancel()
    ensures !FitsInt(-0x8000_0001) && !FitsInt(0x8000_0000)
    ensures Quantile([-0x8000_0001, 0x8000_0000], 2) == TrueQuantile([-0x8000_0001, 0x8000_0000], 2)
  {
    QuantileIsTrue([-0x8000_0001, 0x8000_0000], 2);
  }

  lemma WordIsLost()
    ensures Quantile([0x1_0000_0000], 2) == Int64(0)
  {
  }

  // ----- The aggregates

  datatype SqlValue = Null | Integer(value: int)

  class ModeCtx {
    var riM: int
    var cnt: int
    var pcnt: real
    var mcnt: int
    var mn: int
    var m: Map?
    var done: int
    ghost var values: seq<int>

    constructor ()
      ensures Valid() && values == []
    {
      riM, cnt, mcnt, mn, done := 0, 0, 0, 0, 0;
      pcnt := 0.0;
      m := null;
      values := [];
    }

    /** The map and the nodes of its tree. */
    ghost function Tree(): set<object>
      reads this, m, if m == null then {} else {m.base}
    {
      if m == null then {} else {m} + Footprint(m.base)
    }

    ghost predicate Valid()
      reads this, m, if m == null then {} else {m.base}, Tree()
    {
      Holding() && (m == null <==> values == [])
    }

    ghost predicate Holding()
      reads this, m, if m == null then {} else {m.base}, Tree()
    {
      Reading() == START && cnt == |values| &&
      (m != null ==> m.Valid() && multiset(Expand(m.Entries())) == multiset(values))
    }

    function Reading(): Progress
      reads this
    {
      Progress(riM, mcnt, mn, done)
    }

    function Meaning(iter: Callback): Iterator
      reads this
    {
      match iter
      case ModeIterate => ModeIterator
      case MedianIterate => MedianIterator(cnt, pcnt)
    }

    method Step(arg: SqlValue)
      requires Valid()
      modifies this, Tree()
      ensures Valid() && fresh(Tree() - old(Tree()))
      ensures values == old(values) + if arg.Null? then [] else [arg.value]
    {
      hide Expand, Node.Valid, Node.Entries;
      if arg.Null? {
        return;
      }
      if m == null {
        m := new Map();
        NothingExpanded();
      }
      cnt := cnt + 1;
      InsertValue(arg.value);
    }

    method InsertValue(e: int)
      requires m != null && m.Valid() && multiset(Expand(m.Entries())) == multiset(values)
      modifies `values, Tree()
      ensures m.Valid() && multiset(Expand(m.Entries())) == multiset(values) && values == old(values) + [e]
      ensures fresh(Tree() - old(Tree()))
    {
      hide Expand, Inserted, Map.Valid, Map.Entries;
      ghost var before := m.Entries();
      m.Insert(e);
      OneValueMore(before, m.Entries(), values, e);
      values := values + [e];
    }

    method CallIterator(iter: Callback, e: int, c: int)
      modifies `riM, `mcnt, `mn, `done
      ensures Reading() == Apply(Meaning(iter), old(Reading()), Entry(e, c))
    {
      match iter
      case ModeIterate => ModeIterate(e, c);
      case MedianIterate => MedianIterate(e, c);
    }

    method ModeIterate(e: int, c: int)
      modifies `riM, `mcnt, `mn
      ensures Reading() == Apply(ModeIterator, old(Reading()), Entry(e, c))
    {
      var ei := ToInt(e);
      if mcnt == c {
        mn := mn + 1;
      } else if mcnt < c {
        riM := ei;
        mcnt := c;
        mn := 1;
      }
    }

    method MedianIterate(e: int, c: int)
      modifies `riM, `mcnt, `mn, `done
      ensures Reading() == Apply(MedianIterator(cnt, pcnt), old(Reading()), Entry(e, c))
    {
      if done > 0 {
        return;
      }
      var iL := pcnt;
      var iR := cnt as real - pcnt;
      var il := ToInt(mcnt + c);
      var ir := ToInt(cnt - mcnt);
      if il as real >= iL {
        if ir as real >= iR {
          mn := mn + 1;
          var ei := ToInt(e);
          riM := riM + ei;
        } else {
          done := 1;
        }
      }
      mcnt := mcnt + c;
    }

    /** The mode of the values given, when exactly one value is the most frequent. */
    method ModeFinalize() returns (result: Result)
      requires Valid()
      modifies `riM, `mcnt, `mn, `done
      ensures result != NoResult <==> exists v :: IsMode(values, v)
      ensures forall v :: IsMode(values, v) ==> result == Int64(ToInt(v)) && (result == Int64(v) <==> FitsInt(v))
    {
      result := NoResult;
      if m != null {
        TreeIncreasing(m.base);
        NodeIterate(m.base, Callback.ModeIterate, this);
        ModeFound(m.Entries(), values);
        hide IsMode, Expand, Fold, ToInt;
        if mn == 1 {
          result := Int64(riM);
        }
      }
    }

    /** Division of riM by mn with the convention that a result that is no number is no result. */
    method FinalizePercentile() returns (result: Result)
      requires Valid()
      modifies `riM, `mcnt, `mn, `done
      ensures m == null ==> result == NoResult
      ensures m != null ==> var p := Fold(MedianIterator(cnt, pcnt), START, m.Entries());
              result == MedianResult(p.riM, p.mn)
    {
      result := NoResult;
      if m != null {
        done := 0;
        NodeIterate(m.base, Callback.MedianIterate, this);
        if mn == 1 {
          result := Int64(riM);
        } else if mn != 0 {
          result := Double(riM as real * 1.0 / mn as real);
        }
      }
    }

    lemma PercentileFound(k: int)
      requires Valid() && m != null && 1 <= k <= 3 && pcnt == (cnt * k) as real / 4.0
      ensures var p := Fold(MedianIterator(cnt, pcnt), START, m.Entries());
              IsQuantile(values, k, MedianResult(p.riM, p.mn))
    {
      hide Expand, Increasing, Fold, Quantile, TrueQuantile, MedianResult, IsFound, Counted, ReadsTrue;
      var entries := m.Entries();
      var p := Fold(MedianIterator(cnt, pcnt), START, entries);
      assert |Expand(entries)| == |multiset(Expand(entries))| == |multiset(values)| == |values|;
      TreeIncreasing(m.base);
      QuantileFound(entries, k);
      ExpandSorted(entries);
      ResultIsTrue(Expand(entries), k, MedianResult(p.riM, p.mn));
      forall s | IsSorted(s) && multiset(s) == multiset(values)
        ensures s == Expand(entries)
      {
        SortedIsUnique(s, Expand(entries));
      }
    }

    method MedianFinalize() returns (result: Result)
      requires Valid()
      modifies `riM, `mcnt, `mn, `done, `pcnt
      ensures IsQuantile(values, 2, result)
    {
      hide Expand, Fold, MedianResult, Node.Valid, Node.Entries;
      pcnt := cnt as real / 2.0;
      assert pcnt == (cnt * 2) as real / 4.0;
      if m == null {
        assert IsQuantile(values, 2, NoResult);
      } else {
        PercentileFound(2);
      }
      hide IsQuantile;
      result := FinalizePercentile();
    }

    method LowerQuartileFinalize() returns (result: Result)
      requires Valid()
      modifies `riM, `mcnt, `mn, `done, `pcnt
      ensures IsQuantile(values, 1, result)
    {
      hide Expand, Fold, MedianResult, Node.Valid, Node.Entries;
      pcnt := cnt as real / 4.0;
      if m == null {
        assert IsQuantile(values, 1, NoResult);
      } else {
        PercentileFound(1);
      }
      hide IsQuantile;
      result := FinalizePercentile();
    }

    method UpperQuartileFinalize() returns (result: Result)
      requires Valid()
      modifies `riM, `mcnt, `mn, `done, `pcnt
      ensures IsQuantile(values, 3, result)
    {
      hide Expand, Fold, MedianResult, Node.Valid, Node.Entries;
      pcnt := (cnt * 3) as real / 4.0;
      if m == null {
        assert IsQuantile(values, 3, NoResult);
      } else {
        PercentileFound(3);
      }
      hide IsQuantile;
      result := FinalizePercentile();
    }
  }

  lemma OneValueMore(before: seq<Entry>, after: seq<Entry>, values: seq<int>, e: int)
    requires Inserted(before, after, e) && multiset(Expand(before)) == multiset(values)
    ensures multiset(Expand(after)) == multiset(values + [e])
  {
    hide Expand;
  }

  lemma NothingExpanded()
    ensures Expand([]) == []
  {
  }

  /** The percentile k/4: the quantile of the values put in order exactly when its values are counted,
      and the true one exactly when they are also read as themselves. */
  ghost predicate IsQuantile(values: seq<int>, k: int, result: Result)
    requires 1 <= k <= 3
  {
    if values == [] then result == NoResult
    else
      forall s :: IsSorted(s) && multiset(s) == multiset(values) ==>
        |s| > 0 && IsFound(s, k, result) &&
        (result == Quantile(s, k) <==> Counted(s, k)) &&
        (result == TrueQuantile(s, k) <==> Counted(s, k) && ReadsTrue(s, k))
  }

  datatype Callback = ModeIterate | MedianIterate

  /** Calls the iterator on every node from left to right. */
  method NodeIterate(n: Node?, iter: Callback, ctx: ModeCtx)
    requires ValidTree(n)
    modifies ctx`riM, ctx`mcnt, ctx`mn, ctx`done
    ensures ctx.Reading() == Fold(ctx.Meaning(iter), old(ctx.Reading()), TreeEntries(n))
    decreases Footprint(n)
  {
    hide Apply, Fold, Node.Valid, Node.Entries;
    if n == null {
      FoldNone(ctx.Meaning(iter), ctx.Reading());
    } else {
      JoinedIsValid(n);
      ghost var it, p, here := ctx.Meaning(iter), ctx.Reading(), Entry(n.data, n.count);
      ghost var left, right := TreeEntries(n.l), TreeEntries(n.r);
      FoldNode(it, p, left, here, right);
      NodeIterate(n.l, iter, ctx);
      ctx.CallIterator(iter, n.data, n.count);
      NodeIterate(n.r, iter, ctx);
      assert n.Entries() == left + [here] + right;
    }
  }

  lemma FoldNone(it: Iterator, p: Progress)
    ensures Fold(it, p, []) == p
  {
  }

  lemma FoldNode(it: Iterator, p: Progress, left: seq<Entry>, here: Entry, right: seq<Entry>)
    ensures Fold(it, p, left + [here] + right) == Fold(it, Apply(it, Fold(it, p, left), here), right)
  {
    FoldJoin(it, p, left + [here], right);
    FoldJoin(it, p, left, [here]);
    FoldOne(it, Fold(it, p, left), here);
  }

  lemma FoldOne(it: Iterator, p: Progress, e: Entry)
    ensures Fold(it, p, [e]) == Apply(it, p, e)
  {
    assert [e][..0] == [];
  }
}
