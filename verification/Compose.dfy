/** Dependency order of Compose services: Kahn's algorithm with a sorted ready
    queue, over maps whose iteration order is arbitrary. */
module Compose {
  import opened Text

  /** deps[n] lists what n depends on; a missing entry reads as an empty list. */
  type Dependencies = map<string, seq<string>>

  function DepsOf(deps: Dependencies, n: string): seq<string>
  {
    if n in deps then deps[n] else []
  }

  ghost predicate Distinct<T>(s: seq<T>)
  {
    forall i, j :: 0 <= i < j < |s| ==> s[i] != s[j]
  }

  ghost function Elems<T>(s: seq<T>): set<T>
  {
    set x | x in s
  }

  /** Every dependency of every entry comes before it. */
  ghost predicate DependencyFirst(deps: Dependencies, order: seq<string>)
  {
    forall i, d :: 0 <= i < |order| && d in DepsOf(deps, order[i]) ==> d in order[..i]
  }

  /** A dependency-first permutation of the nodes. */
  ghost predicate IsOrder(deps: Dependencies, nodes: set<string>, order: seq<string>)
  {
    Distinct(order) && Elems(order) == nodes && DependencyFirst(deps, order)
  }

  /** Lexicographic order on lists of names. */
  ghost predicate NoLater(a: seq<string>, b: seq<string>)
  {
    a == b || exists k: nat :: FirstDifference(a, b, k)
  }

  ghost predicate FirstDifference(a: seq<string>, b: seq<string>, k: nat)
  {
    k < |a| && k < |b| && a[..k] == b[..k] && Less(a[k], b[k])
  }

  /** The lexicographically least dependency-first permutation. */
  ghost predicate IsLeastOrder(deps: Dependencies, nodes: set<string>, order: seq<string>)
  {
    IsOrder(deps, nodes, order) && forall p :: IsOrder(deps, nodes, p) ==> NoLater(order, p)
  }

  // ---------------------------------------------------------------- the greedy choice

  ghost predicate Ready(deps: Dependencies, nodes: set<string>, placed: seq<string>, n: string)
  {
    n in nodes && n !in placed && forall d :: d in DepsOf(deps, n) ==> d in placed
  }

  /** Each entry was the least ready node when it was placed. */
  ghost predicate Greedy(deps: Dependencies, nodes: set<string>, order: seq<string>)
  {
    && (forall i :: 0 <= i < |order| ==> Ready(deps, nodes, order[..i], order[i]))
    && (forall i, n :: 0 <= i < |order| && Ready(deps, nodes, order[..i], n) ==> !Less(n, order[i]))
  }

  lemma GreedySnoc(deps: Dependencies, nodes: set<string>, order: seq<string>, n: string)
    requires Greedy(deps, nodes, order) && Ready(deps, nodes, order, n)
    requires forall m :: Ready(deps, nodes, order, m) ==> !Less(m, n)
    ensures Greedy(deps, nodes, order + [n])
  {
    var next := order + [n];
    assert forall i :: 0 <= i <= |order| ==> next[..i] == order[..i];
    assert order[..|order|] == order;
  }

  lemma GreedyIsDistinct(deps: Dependencies, nodes: set<string>, order: seq<string>)
    requires Greedy(deps, nodes, order)
    ensures Distinct(order) && Elems(order) <= nodes && DependencyFirst(deps, order)
  {
    forall i, j | 0 <= i < j < |order| ensures order[i] != order[j] {
      assert Ready(deps, nodes, order[..j], order[j]);
      assert order[..j][i] == order[i];
    }
  }

  lemma {:induction false} DistinctSize<T>(s: seq<T>)
    requires Distinct(s)
    ensures |Elems(s)| == |s|
  {
    if s != [] {
      var init, last := s[..|s|-1], s[|s|-1];
      DistinctSize(init);
      ElemsSnoc(init, last);
      assert s == init + [last];
    }
  }

  lemma ElemsSnoc<T>(s: seq<T>, x: T)
    ensures Elems(s + [x]) == Elems(s) + {x}
    ensures x in Elems(s) <==> x in s
  {}

  lemma CompleteOrder(deps: Dependencies, nodes: set<string>, order: seq<string>)
    requires Greedy(deps, nodes, order) && |order| == |nodes|
    ensures Elems(order) == nodes
  {
    GreedyIsDistinct(deps, nodes, order);
    DistinctSize(order);
    SubsetOfSameSize(Elems(order), nodes);
  }

  lemma SubsetOfSameSize<T>(a: set<T>, b: set<T>)
    requires a <= b && |a| == |b|
    ensures a == b
  {
    assert |b - a| == |b| - |a|;
  }

  /** A complete greedy order precedes every other dependency-first permutation. */
  lemma GreedyIsLeast(deps: Dependencies, nodes: set<string>, order: seq<string>, p: seq<string>)
    requires Greedy(deps, nodes, order) && Elems(order) == nodes && IsOrder(deps, nodes, p)
    ensures NoLater(order, p)
  {
    GreedyIsDistinct(deps, nodes, order);
    DistinctSize(order);
    DistinctSize(p);
    assert |order| == |p|;
    var k := AgreeUpTo(order, p);
    if k < |p| {
      assert Ready(deps, nodes, p[..k], p[k]) by {
        assert p[k] in Elems(p);
        assert forall i :: 0 <= i < k ==> p[i] != p[k];
      }
      LessTotal(order[k], p[k]);
      assert FirstDifference(order, p, k);
    }
  }

  /** Length of the longest common prefix of two lists of the same length. */
  ghost function AgreeUpTo(a: seq<string>, b: seq<string>): (k: nat)
    requires |a| == |b|
    ensures k <= |a| && a[..k] == b[..k]
    ensures k < |a| ==> a[k] != b[k]
    ensures k == |a| ==> a == b
  {
    if a == [] then 0
    else if a[0] != b[0] then 0
    else
      assert a == [a[0]] + a[1..] && b == [b[0]] + b[1..];
      var k := 1 + AgreeUpTo(a[1..], b[1..]);
      assert a[..k] == [a[0]] + a[1..][..k-1] && b[..k] == [b[0]] + b[1..][..k-1];
      k
  }

  /** While some dependency-first permutation exists, something is always ready:
      its first entry that is not yet placed. */
  lemma SomethingIsReady(deps: Dependencies, nodes: set<string>, order: seq<string>, p: seq<string>) returns (n: string)
    requires IsOrder(deps, nodes, p) && Elems(order) < nodes
    ensures Ready(deps, nodes, order, n)
  {
    var missing :| missing in nodes && missing !in order;
    assert missing in Elems(p);
    var k := FirstOutside(p, order);
    assert p[..|p|] == p;
    n := p[k];
    assert n in Elems(p);
    forall d | d in DepsOf(deps, n) ensures d in order {
      assert d in p[..k];
    }
  }

  ghost function FirstOutside(p: seq<string>, done: seq<string>): (k: nat)
    ensures k <= |p|
    ensures forall x :: x in p[..k] ==> x in done
    ensures k < |p| ==> p[k] !in done
  {
    if p == [] || p[0] !in done then 0
    else
      var k := 1 + FirstOutside(p[1..], done);
      assert p[..k] == [p[0]] + p[1..][..k-1];
      k
  }

  lemma SamePrefix(a: seq<string>, b: seq<string>, k: nat)
    requires k <= |a| && k <= |b| && a[..k] == b[..k]
    ensures forall m :: 0 <= m < k ==> a[m] == b[m]
  {
    assert forall m :: 0 <= m < k ==> a[m] == a[..k][m] && b[m] == b[..k][m];
  }

  /** The least order is unique, so nothing about the input but the set of
      nodes and the dependencies can show in the result. */
  lemma LeastOrderIsUnique(deps: Dependencies, nodes: set<string>, a: seq<string>, b: seq<string>)
    requires IsLeastOrder(deps, nodes, a) && IsLeastOrder(deps, nodes, b)
    ensures a == b
  {
    assert NoLater(a, b) && NoLater(b, a);
    if a != b {
      var i: nat :| FirstDifference(a, b, i);
      var j: nat :| FirstDifference(b, a, j);
      LessTotal(a[i], b[i]);
      LessTotal(a[j], b[j]);
      SamePrefix(a, b, i);
      SamePrefix(a, b, j);
    }
  }

  /** Next to each other stand a name and one that depends on it, or two names
      in byte order. */
  ghost predicate NeighboursAscend(deps: Dependencies, order: seq<string>)
  {
    forall i :: 0 <= i < |order| - 1 ==> order[i] in DepsOf(deps, order[i+1]) || ComesFirst(order[i], order[i+1])
  }

  /** What least means for the names themselves: only a dependency puts a name
      before one that is smaller. */
  lemma LeastOrderAscends(deps: Dependencies, nodes: set<string>, order: seq<string>)
    requires IsLeastOrder(deps, nodes, order)
    ensures NeighboursAscend(deps, order)
  {
    assert Distinct(order);
    hide ComesFirst, IsOrder, NoLater;
    forall i | 0 <= i < |order| - 1 && order[i] !in DepsOf(deps, order[i+1])
      ensures ComesFirst(order[i], order[i+1])
    {
      var swapped := order[i := order[i+1]][i+1 := order[i]];
      SwappedIsOrder(deps, nodes, order, i);
      assert NoLater(order, swapped);
      SwappedIsLater(order, i);
      LessMeans(order[i], order[i+1]);
    }
  }

  lemma SwappedIsOrder(deps: Dependencies, nodes: set<string>, order: seq<string>, i: nat)
    requires IsOrder(deps, nodes, order) && i < |order| - 1 && order[i] !in DepsOf(deps, order[i+1])
    ensures IsOrder(deps, nodes, order[i := order[i+1]][i+1 := order[i]])
  {
    var swapped := order[i := order[i+1]][i+1 := order[i]];
    forall x ensures x in swapped <==> x in order {
      if x in order {
        var k :| 0 <= k < |order| && order[k] == x;
        assert swapped[if k == i then i + 1 else if k == i + 1 then i else k] == x;
      }
    }
    assert Elems(swapped) == Elems(order);
    forall m, d | 0 <= m < |swapped| && d in DepsOf(deps, swapped[m]) ensures d in swapped[..m] {
      SwappedKeepsDependency(deps, order, i, m, d);
    }
  }

  lemma SwappedKeepsDependency(deps: Dependencies, order: seq<string>, i: nat, m: nat, d: string)
    requires DependencyFirst(deps, order) && i < |order| - 1 && order[i] !in DepsOf(deps, order[i+1])
    requires m < |order| && d in DepsOf(deps, order[i := order[i+1]][i+1 := order[i]][m])
    ensures d in order[i := order[i+1]][i+1 := order[i]][..m]
  {
    var swapped := order[i := order[i+1]][i+1 := order[i]];
    var from := if m == i then i + 1 else if m == i + 1 then i else m;
    assert d in order[..from];
    var k :| 0 <= k < from && order[k] == d;
    var to := if k == i then i + 1 else if k == i + 1 then i else k;
    assert to < m && swapped[..m][to] == d;
  }

  lemma SwappedIsLater(order: seq<string>, i: nat)
    requires i < |order| - 1 && order[i] != order[i+1]
    requires NoLater(order, order[i := order[i+1]][i+1 := order[i]])
    ensures Less(order[i], order[i+1])
  {
    var swapped := order[i := order[i+1]][i+1 := order[i]];
    assert swapped[i] != order[i];
    var k: nat :| FirstDifference(order, swapped, k);
    SamePrefix(order, swapped, k);
    LessTotal(order[k], order[k]);
    assert k == i;
  }

  // ---------------------------------------------------------------- cycles

  /** Each entry depends on the next one, and the last on the first. */
  ghost predicate IsCycle(deps: Dependencies, cycle: seq<string>)
  {
    && |cycle| > 0
    && IsWalk(deps, cycle)
    && cycle[0] in DepsOf(deps, cycle[|cycle|-1])
  }

  ghost predicate IsWalk(deps: Dependencies, walk: seq<string>)
  {
    forall i :: 0 <= i < |walk| - 1 ==> walk[i+1] in DepsOf(deps, walk[i])
  }

  ghost predicate Closed(deps: Dependencies, nodes: set<string>)
  {
    forall n, d :: n in nodes && d in DepsOf(deps, n) ==> d in nodes
  }

  ghost predicate DependsInto(deps: Dependencies, stuck: set<string>, n: string)
  {
    exists d :: d in DepsOf(deps, n) && d in stuck
  }

  /** A set in which everything depends on something in the set holds a cycle. */
  lemma {:induction false} WalkFindsCycle(deps: Dependencies, stuck: set<string>,
                                          walk: seq<string>) returns (cycle: seq<string>)
    requires |walk| > 0 && Distinct(walk) && Elems(walk) <= stuck && IsWalk(deps, walk)
    requires forall n {:trigger DependsInto(deps, stuck, n)} :: n in stuck ==> DependsInto(deps, stuck, n)
    ensures IsCycle(deps, cycle) && Elems(cycle) <= stuck
    decreases |stuck| - |Elems(walk)|
  {
    hide Distinct, IsWalk, IsCycle;
    var last := walk[|walk|-1];
    assert last in Elems(walk);
    assert DependsInto(deps, stuck, last);
    hide Elems;
    var d :| d in DepsOf(deps, last) && d in stuck;
    if d in walk {
      var j :| 0 <= j < |walk| && walk[j] == d;
      CloseWalk(deps, stuck, walk, j);
      cycle := walk[j..];
    } else {
      ExtendWalk(deps, stuck, walk, d);
      cycle := WalkFindsCycle(deps, stuck, walk + [d]);
    }
  }

  lemma CloseWalk(deps: Dependencies, stuck: set<string>, walk: seq<string>, j: nat)
    requires j < |walk| && Elems(walk) <= stuck && IsWalk(deps, walk) && walk[j] in DepsOf(deps, walk[|walk|-1])
    ensures IsCycle(deps, walk[j..]) && Elems(walk[j..]) <= stuck
  {
    forall x | x in walk[j..] ensures x in stuck {
      assert x in Elems(walk);
    }
  }

  lemma ExtendWalk(deps: Dependencies, stuck: set<string>, walk: seq<string>, d: string)
    requires |walk| > 0 && Distinct(walk) && Elems(walk) <= stuck && IsWalk(deps, walk)
    requires d in DepsOf(deps, walk[|walk|-1]) && d in stuck && d !in walk
    ensures Distinct(walk + [d]) && Elems(walk + [d]) <= stuck && IsWalk(deps, walk + [d])
    ensures |Elems(walk)| < |Elems(walk + [d])| <= |stuck|
  {
    ElemsSnoc(walk, d);
    SubsetSize(Elems(walk + [d]), stuck);
    hide Elems;
  }

  lemma SubsetSize<T>(a: set<T>, b: set<T>)
    requires a <= b
    ensures |a| <= |b|
  {
    assert |b - a| == |b| - |a|;
  }

  lemma {:induction false} WalkDescends(deps: Dependencies, order: seq<string>, walk: seq<string>,
                                        from: nat) returns (to: nat)
    requires DependencyFirst(deps, order) && IsWalk(deps, walk) && |walk| > 0
    requires from < |order| && order[from] == walk[0]
    ensures to < |order| && order[to] == walk[|walk|-1] && to + |walk| <= from + 1
  {
    if |walk| == 1 {
      to := from;
    } else {
      assert walk[1] in order[..from];
      var next :| 0 <= next < from && order[next] == walk[1];
      to := WalkDescends(deps, order, walk[1..], next);
    }
  }

  /** Where nothing more is ready, the nodes left over of a closed graph hold a cycle. */
  lemma StuckHoldsCycle(deps: Dependencies, nodes: set<string>, order: seq<string>) returns (cycle: seq<string>)
    requires Closed(deps, nodes) && Elems(order) < nodes
    requires forall n :: !Ready(deps, nodes, order, n)
    ensures IsCycle(deps, cycle) && Elems(cycle) <= nodes
  {
    var stuck := nodes - Elems(order);
    forall n | n in stuck ensures DependsInto(deps, stuck, n) {
      assert !Ready(deps, nodes, order, n);
      var d :| d in DepsOf(deps, n) && d !in order;
      assert d in stuck;
    }
    var n :| n in nodes && n !in Elems(order);
    assert Elems([n]) == {n};
    cycle := WalkFindsCycle(deps, stuck, [n]);
  }

  /** A graph with a cycle has no dependency-first permutation. */
  lemma CycleMeansNoOrder(deps: Dependencies, nodes: set<string>, cycle: seq<string>, p: seq<string>)
    requires IsCycle(deps, cycle) && Elems(cycle) <= nodes
    ensures !IsOrder(deps, nodes, p)
  {
    if IsOrder(deps, nodes, p) {
      assert cycle[0] in Elems(cycle);
      assert cycle[0] in Elems(p);
      var from :| 0 <= from < |p| && p[from] == cycle[0];
      var to := WalkDescends(deps, p, cycle + [cycle[0]], from);
    }
  }

  // ---------------------------------------------------------------- the sorted ready queue

  ghost predicate Ascending(s: seq<string>)
  {
    forall i, j :: 0 <= i < j < |s| ==> Less(s[i], s[j])
  }

  /** In order, but for entry j, which may still have to move down. */
  ghost predicate SortedBut(s: seq<string>, j: nat, n: nat)
  {
    forall p, q :: 0 <= p < q < n && q < |s| && q != j ==> !Less(s[q], s[p])
  }

  lemma SwapDown(s: seq<string>, j: nat, n: nat)
    requires 0 < j < n <= |s| && SortedBut(s, j, n) && Less(s[j], s[j-1])
    ensures SortedBut(s[j := s[j-1]][j-1 := s[j]], j - 1, n)
  {
    hide Less;
    LessTotal(s[j], s[j-1]);
  }

  lemma InPlace(s: seq<string>, j: nat, n: nat)
    requires j < n <= |s| && SortedBut(s, j, n) && (j > 0 ==> !Less(s[j], s[j-1]))
    ensures SortedBut(s, n, n)
  {
    hide Less;
    forall p | 0 <= p < j ensures !Less(s[j], s[p]) {
      if p < j - 1 { NotLessTransitive(s[p], s[j-1], s[j]); }
    }
  }

  /** Insertion sort, in place. */
  method SortStrings(a: array<string>)
    modifies a
    ensures multiset(a[..]) == multiset(old(a[..]))
    ensures forall p, q :: 0 <= p < q < a.Length ==> !Less(a[..][q], a[..][p])
  {
    hide Less, SortedBut;
    var i := 1;
    SortedOne(a[..]);
    while i < a.Length
      invariant 1 <= i && (i <= a.Length || a.Length == 0)
      invariant multiset(a[..]) == multiset(old(a[..]))
      invariant SortedBut(a[..], i, i)
    {
      SortedNext(a[..], i);
      var j := i;
      while j > 0 && Less(a[j], a[j-1])
        invariant 0 <= j <= i
        invariant multiset(a[..]) == multiset(old(a[..]))
        invariant SortedBut(a[..], j, i + 1)
      {
        SwapDown(a[..], j, i + 1);
        SwapBack(a, j);
        j := j - 1;
      }
      InPlace(a[..], j, i + 1);
      i := i + 1;
    }
    SortedEnd(a[..], i);
  }

  method SwapBack<T>(a: array<T>, j: nat)
    requires 0 < j < a.Length
    modifies a
    ensures multiset(a[..]) == multiset(old(a[..]))
    ensures a[..] == old(a[..])[j := old(a[j-1])][j-1 := old(a[j])]
  {
    a[j], a[j-1] := a[j-1], a[j];
  }

  lemma SortedOne(s: seq<string>)
    ensures SortedBut(s, 1, 1)
  {}

  lemma SortedNext(s: seq<string>, n: nat)
    requires SortedBut(s, n, n)
    ensures SortedBut(s, n, n + 1)
  {}

  lemma SortedEnd(s: seq<string>, n: nat)
    requires SortedBut(s, n, n) && (n == |s| || |s| == 0)
    ensures forall p, q :: 0 <= p < q < |s| ==> !Less(s[q], s[p])
  {
    hide Less;
  }

  lemma NotLessTransitive(a: string, b: string, c: string)
    requires !Less(b, a) && !Less(c, b)
    ensures !Less(c, a)
  {
    LessTotal(a, b);
    LessTotal(b, c);
    LessTotal(a, c);
    if Less(a, b) && Less(b, c) { LessTransitive(a, b, c); }
  }

  /** Inserts a new name before the first one that is not less. */
  method InsertSorted(s: seq<string>, item: string) returns (r: seq<string>)
    requires Ascending(s) && item !in s
    ensures Ascending(r)
    ensures multiset(r) == multiset(s) + multiset{item}
  {
    var i := 0;
    while i < |s| && Less(s[i], item)
      invariant 0 <= i <= |s|
      invariant forall k :: 0 <= k < i ==> Less(s[k], item)
    {
      i := i + 1;
    }
    r := s[..i] + [item] + s[i..];
    assert s == s[..i] + s[i..];
    forall k | i <= k < |s| ensures Less(item, s[k]) {
      LessTotal(item, s[i]);
      if i < k { LessTransitive(item, s[i], s[k]); }
    }
  }

  // ---------------------------------------------------------------- in-degrees

  /** How many entries of ds are not yet placed. */
  function Missing(ds: seq<string>, placed: seq<string>): nat
  {
    if ds == [] then 0
    else Missing(ds[..|ds|-1], placed) + if ds[|ds|-1] in placed then 0 else 1
  }

  lemma {:induction false} MissingZero(ds: seq<string>, placed: seq<string>)
    ensures Missing(ds, placed) == 0 <==> forall d :: d in ds ==> d in placed
  {
    if ds != [] {
      MissingZero(ds[..|ds|-1], placed);
      assert ds == ds[..|ds|-1] + [ds[|ds|-1]];
    }
  }

  lemma {:induction false} MissingNone(ds: seq<string>)
    ensures Missing(ds, []) == |ds|
  {
    if ds != [] { MissingNone(ds[..|ds|-1]); }
  }

  /** Placing a node removes as many missing entries as it occurs. */
  lemma {:induction false} MissingAfter(ds: seq<string>, placed: seq<string>, n: string)
    requires n !in placed
    ensures Missing(ds, placed) == Missing(ds, placed + [n]) + multiset(ds)[n]
  {
    if ds != [] {
      MissingAfter(ds[..|ds|-1], placed, n);
      assert ds == ds[..|ds|-1] + [ds[|ds|-1]];
    }
  }

  /** Go reads a missing map entry as zero, and a missing list as empty. */
  function Degree(inDegree: map<string, int>, n: string): int
  {
    if n in inDegree then inDegree[n] else 0
  }

  /** reverse[d] holds each dependent of d as often as the dependent names d. */
  ghost predicate Reverses(reverse: Dependencies, deps: Dependencies)
  {
    forall d, n :: multiset(DepsOf(reverse, d))[n] == multiset(DepsOf(deps, n))[d]
  }

  /** `reverse` extends `before` by these entries for one node. */
  ghost predicate Adds(reverse: Dependencies, before: Dependencies, node: string, entries: seq<string>)
  {
    forall d, n :: multiset(DepsOf(reverse, d))[n]
                == multiset(DepsOf(before, d))[n] + if n == node then multiset(entries)[d] else 0
  }

  lemma OneMoreEntry(reverse: Dependencies, before: Dependencies, node: string, entries: seq<string>, e: string)
    requires Adds(reverse, before, node, entries)
    ensures Adds(reverse[e := DepsOf(reverse, e) + [node]], before, node, entries + [e])
  {}

  /** Builds the reverse adjacency; the keys are visited in any order. */
  method ReverseAdjacency(deps: Dependencies) returns (reverse: Dependencies)
    ensures Reverses(reverse, deps)
  {
    reverse := map[];
    var todo := deps.Keys;
    while todo != {}
      invariant todo <= deps.Keys
      invariant forall d, n :: multiset(DepsOf(reverse, d))[n]
                            == if n in todo then 0 else multiset(DepsOf(deps, n))[d]
    {
      var node :| node in todo;
      var ds := deps[node];
      ghost var before := reverse;
      for j := 0 to |ds|
        invariant Adds(reverse, before, node, ds[..j])
      {
        TakeSnoc(ds, j);
        OneMoreEntry(reverse, before, node, ds[..j], ds[j]);
        reverse := reverse[ds[j] := DepsOf(reverse, ds[j]) + [node]];
      }
      assert ds[..|ds|] == ds;
      todo := todo - {node};
    }
  }

  // ---------------------------------------------------------------- the sort

  /** The queue holds the ready nodes, in order. */
  ghost predicate QueueHolds(queue: seq<string>, nodes: set<string>, placed: seq<string>, inDegree: map<string, int>)
  {
    && Ascending(queue)
    && forall n :: n in queue <==> n in nodes && n !in placed && Degree(inDegree, n) == 0
  }

  /** Each node's in-degree counts its unplaced dependencies, plus the
      decrements still to come. */
  ghost predicate DegreesCount(deps: Dependencies, nodes: set<string>, placed: seq<string>,
                               inDegree: map<string, int>, pending: seq<string>)
  {
    && (forall n :: n in nodes ==>
          Degree(inDegree, n) == Missing(DepsOf(deps, n), placed) + multiset(pending)[n])
    && (forall n :: n !in nodes ==> Degree(inDegree, n) <= 0)
  }

  lemma QueuedIffReady(deps: Dependencies, nodes: set<string>, placed: seq<string>,
                       inDegree: map<string, int>, queue: seq<string>, n: string)
    requires QueueHolds(queue, nodes, placed, inDegree) && DegreesCount(deps, nodes, placed, inDegree, [])
    ensures n in queue <==> Ready(deps, nodes, placed, n)
  {
    MissingZero(DepsOf(deps, n), placed);
  }

  lemma HeadIsLeastReady(deps: Dependencies, nodes: set<string>, placed: seq<string>,
                         inDegree: map<string, int>, queue: seq<string>)
    requires QueueHolds(queue, nodes, placed, inDegree) && DegreesCount(deps, nodes, placed, inDegree, [])
    requires |queue| > 0
    ensures Ready(deps, nodes, placed, queue[0])
    ensures forall m :: Ready(deps, nodes, placed, m) ==> !Less(m, queue[0])
  {
    QueuedIffReady(deps, nodes, placed, inDegree, queue, queue[0]);
    forall m | Ready(deps, nodes, placed, m) ensures !Less(m, queue[0]) {
      QueuedIffReady(deps, nodes, placed, inDegree, queue, m);
      var k :| 0 <= k < |queue| && queue[k] == m;
      LessTotal(m, queue[0]);
    }
  }

  lemma DegreesAfterPlacing(deps: Dependencies, nodes: set<string>, placed: seq<string>,
                            inDegree: map<string, int>, node: string, dependents: seq<string>)
    requires DegreesCount(deps, nodes, placed, inDegree, []) && node !in placed
    requires forall n :: multiset(dependents)[n] == multiset(DepsOf(deps, n))[node]
    ensures DegreesCount(deps, nodes, placed + [node], inDegree, dependents)
  {
    forall n | n in nodes
      ensures Degree(inDegree, n) == Missing(DepsOf(deps, n), placed + [node]) + multiset(dependents)[n]
    {
      MissingAfter(DepsOf(deps, n), placed, node);
    }
  }

  /** What depends on the node just placed is not placed yet. */
  lemma DependentIsUnplaced(deps: Dependencies, nodes: set<string>, placed: seq<string>, dependent: string)
    requires Greedy(deps, nodes, placed) && |placed| > 0
    requires placed[|placed|-1] in DepsOf(deps, dependent)
    ensures dependent !in placed
  {
    GreedyIsDistinct(deps, nodes, placed);
    var last := |placed| - 1;
    forall i | 0 <= i < |placed| ensures placed[i] != dependent {
      assert forall k :: 0 <= k < i ==> placed[..i][k] != placed[last];
      assert placed[last] !in placed[..i];
    }
  }

  lemma AllPlaced(deps: Dependencies, nodes: set<string>, order: seq<string>)
    requires Greedy(deps, nodes, order) && |order| == |nodes|
    ensures IsLeastOrder(deps, nodes, order)
    ensures forall c :: IsCycle(deps, c) ==> !(Elems(c) <= nodes)
  {
    CompleteOrder(deps, nodes, order);
    GreedyIsDistinct(deps, nodes, order);
    forall p | IsOrder(deps, nodes, p) ensures NoLater(order, p) {
      GreedyIsLeast(deps, nodes, order, p);
    }
    forall c | IsCycle(deps, c) && Elems(c) <= nodes ensures false {
      CycleMeansNoOrder(deps, nodes, c, order);
    }
  }

  lemma NotAllPlaced(deps: Dependencies, nodes: set<string>, order: seq<string>)
    requires Greedy(deps, nodes, order) && |order| != |nodes|
    requires forall n :: !Ready(deps, nodes, order, n)
    ensures forall p :: !IsOrder(deps, nodes, p)
    ensures Closed(deps, nodes) ==> exists c :: IsCycle(deps, c) && Elems(c) <= nodes
  {
    GreedyIsDistinct(deps, nodes, order);
    DistinctSize(order);
    assert nodes <= Elems(order) ==> nodes == Elems(order);
    forall p | IsOrder(deps, nodes, p) ensures false {
      var n := SomethingIsReady(deps, nodes, order, p);
    }
    if Closed(deps, nodes) {
      var c := StuckHoldsCycle(deps, nodes, order);
    }
  }

  /** The nodes without dependencies, sorted. */
  method ReadyAtStart(allNodes: seq<string>, inDegree: map<string, int>) returns (queue: seq<string>)
    requires Distinct(allNodes)
    ensures QueueHolds(queue, Elems(allNodes), [], inDegree)
  {
    queue := [];
    for i := 0 to |allNodes|
      invariant Distinct(queue)
      invariant forall n :: n in queue <==> n in allNodes[..i] && Degree(inDegree, n) == 0
    {
      TakeSnoc(allNodes, i);
      assert forall k :: 0 <= k < i ==> allNodes[k] != allNodes[i];
      if Degree(inDegree, allNodes[i]) == 0 {
        queue := queue + [allNodes[i]];
      }
    }
    assert allNodes[..|allNodes|] == allNodes;
    var a := new string[|queue|](k requires 0 <= k < |queue| => queue[k]);
    assert a[..] == queue;
    SortStrings(a);
    SortedIsAscending(queue, a[..]);
    queue := a[..];
  }

  lemma SortedIsAscending(s: seq<string>, t: seq<string>)
    requires Distinct(s) && multiset(s) == multiset(t)
    requires forall p, q :: 0 <= p < q < |t| ==> !Less(t[q], t[p])
    ensures Ascending(t)
    ensures forall n :: n in t <==> n in s
  {
    forall n ensures n in t <==> n in s {
      assert n in multiset(s) <==> n in multiset(t);
    }
    forall p, q | 0 <= p < q < |t| ensures Less(t[p], t[q]) {
      LessTotal(t[p], t[q]);
      DistinctCounts(s, t[p]);
      assert t == t[..q] + t[q..] && t[..q][p] == t[p] && t[q..][0] == t[q];
    }
  }

  lemma {:induction false} DistinctCounts(s: seq<string>, n: string)
    requires Distinct(s)
    ensures multiset(s)[n] <= 1
  {
    if s != [] {
      var init := s[..|s|-1];
      DistinctCounts(init, n);
      assert s == init + [s[|s|-1]];
      assert forall i :: 0 <= i < |init| ==> init[i] != s[|s|-1];
    }
  }

  /** The in-degree each node starts with. */
  method CountDependencies(deps: Dependencies, allNodes: seq<string>) returns (inDegree: map<string, int>)
    ensures DegreesCount(deps, Elems(allNodes), [], inDegree, [])
  {
    inDegree := map[];
    for i := 0 to |allNodes|
      invariant forall n {:trigger Degree(inDegree, n)} ::
                  Degree(inDegree, n) == if n in allNodes[..i] then |DepsOf(deps, n)| else 0
    {
      TakeSnoc(allNodes, i);
      assert forall n :: n in allNodes[..i+1] <==> n in allNodes[..i] || n == allNodes[i];
      ghost var before := inDegree;
      inDegree := inDegree[allNodes[i] := |DepsOf(deps, allNodes[i])|];
      assert forall n :: Degree(inDegree, n) == if n == allNodes[i] then |DepsOf(deps, n)| else Degree(before, n);
    }
    assert allNodes[..|allNodes|] == allNodes;
    forall n | n in allNodes ensures Degree(inDegree, n) == Missing(DepsOf(deps, n), []) {
      MissingNone(DepsOf(deps, n));
    }
  }

  /** The queue for the degrees, but for one node that is not in it. */
  ghost predicate QueueLacks(queue: seq<string>, nodes: set<string>, placed: seq<string>, inDegree: map<string, int>,
                             missing: string)
  {
    && Ascending(queue) && missing !in queue
    && forall n :: n != missing ==> (n in queue <==> n in nodes && n !in placed && Degree(inDegree, n) == 0)
  }

  /** What one decrement does to the counts and to the queue. */
  lemma OneRelease(deps: Dependencies, nodes: set<string>, placed: seq<string>, before: map<string, int>,
                   queue: seq<string>, dependent: string, rest: seq<string>)
    requires DegreesCount(deps, nodes, placed, before, [dependent] + rest) && QueueHolds(queue, nodes, placed, before)
    ensures var inDegree := before[dependent := Degree(before, dependent) - 1];
            && DegreesCount(deps, nodes, placed, inDegree, rest)
            && (inDegree[dependent] == 0 ==>
                  dependent in nodes && QueueLacks(queue, nodes, placed, inDegree, dependent))
            && (inDegree[dependent] != 0 ==> QueueHolds(queue, nodes, placed, inDegree))
  {
    hide Missing, Less;
    var inDegree := before[dependent := Degree(before, dependent) - 1];
    assert forall n :: Degree(inDegree, n) == Degree(before, n) - if n == dependent then 1 else 0;
  }

  lemma OneInsertion(nodes: set<string>, placed: seq<string>, inDegree: map<string, int>,
                     waiting: seq<string>, dependent: string, queue: seq<string>)
    requires QueueLacks(waiting, nodes, placed, inDegree, dependent) && Ascending(queue)
    requires dependent in nodes && dependent !in placed && Degree(inDegree, dependent) == 0
    requires multiset(queue) == multiset(waiting) + multiset{dependent}
    ensures QueueHolds(queue, nodes, placed, inDegree)
  {
    hide Less;
    assert forall n :: n in queue <==> n in multiset(waiting) + multiset{dependent};
  }

  /** Decrements the dependents of the node just placed; one that reaches zero
      joins the queue. */
  method ReleaseDependents(ghost deps: Dependencies, ghost nodes: set<string>, ghost placed: seq<string>,
                           degrees: map<string, int>, ready: seq<string>, dependents: seq<string>)
    returns (inDegree: map<string, int>, queue: seq<string>)
    requires Greedy(deps, nodes, placed) && |placed| > 0
    requires forall n :: multiset(dependents)[n] == multiset(DepsOf(deps, n))[placed[|placed|-1]]
    requires DegreesCount(deps, nodes, placed, degrees, dependents)
    requires QueueHolds(ready, nodes, placed, degrees)
    ensures DegreesCount(deps, nodes, placed, inDegree, [])
    ensures QueueHolds(queue, nodes, placed, inDegree)
  {
    hide Greedy, DegreesCount, Missing, Less;
    inDegree, queue := degrees, ready;
    for j := 0 to |dependents|
      invariant DegreesCount(deps, nodes, placed, inDegree, dependents[j..])
      invariant QueueHolds(queue, nodes, placed, inDegree)
    {
      var dependent := dependents[j];
      assert dependents[j..] == [dependent] + dependents[j+1..];
      OneRelease(deps, nodes, placed, inDegree, queue, dependent, dependents[j+1..]);
      inDegree := inDegree[dependent := Degree(inDegree, dependent) - 1];
      if inDegree[dependent] == 0 {
        assert dependent in multiset(dependents);
        DependentIsUnplaced(deps, nodes, placed, dependent);
        ghost var waiting := queue;
        queue := InsertSorted(queue, dependent);
        OneInsertion(nodes, placed, inDegree, waiting, dependent, queue);
      }
    }
    assert dependents[|dependents|..] == [];
  }

  /** A topological sort of the nodes: the lexicographically least
      dependency-first permutation, or an error exactly when there is none.
      The loops over the maps visit their keys in any order, and `allNodes`
      comes in any order; neither shows in the result. */
  method TopoSort(deps: Dependencies, allNodes: seq<string>) returns (order: Option<seq<string>>)
    requires Distinct(allNodes)
    ensures order.Some? ==> IsLeastOrder(deps, Elems(allNodes), order.value)
    ensures order.None? <==> forall p :: !IsOrder(deps, Elems(allNodes), p)
    ensures Closed(deps, Elems(allNodes)) ==>
              (order.None? <==> exists c :: IsCycle(deps, c) && Elems(c) <= Elems(allNodes))
    ensures order.Some? ==> NeighboursAscend(deps, order.value)
  {
    ghost var nodes := Elems(allNodes);
    DistinctSize(allNodes);

    var inDegree := CountDependencies(deps, allNodes);
    var reverse := ReverseAdjacency(deps);

    var queue := ReadyAtStart(allNodes, inDegree);
    var result: seq<string> := [];
    while |queue| > 0
      invariant Greedy(deps, nodes, result) && |result| <= |allNodes|
      invariant DegreesCount(deps, nodes, result, inDegree, [])
      invariant QueueHolds(queue, nodes, result, inDegree)
      decreases |allNodes| - |result|
    {
      var node := queue[0];
      HeadIsLeastReady(deps, nodes, result, inDegree, queue);
      GreedySnoc(deps, nodes, result, node);
      GreedyIsDistinct(deps, nodes, result + [node]);
      DistinctSize(result + [node]);
      SubsetSize(Elems(result + [node]), nodes);
      var dependents := DepsOf(reverse, node);
      DegreesAfterPlacing(deps, nodes, result, inDegree, node, dependents);
      queue := queue[1..];
      result := result + [node];
      inDegree, queue := ReleaseDependents(deps, nodes, result, inDegree, queue, dependents);
    }

    forall n ensures !Ready(deps, nodes, result, n) {
      QueuedIffReady(deps, nodes, result, inDegree, queue, n);
    }
    if |result| != |allNodes| {
      NotAllPlaced(deps, nodes, result);
      order := None;
    } else {
      AllPlaced(deps, nodes, result);
      LeastOrderAscends(deps, nodes, result);
      order := Some(result);
    }
  }
}
