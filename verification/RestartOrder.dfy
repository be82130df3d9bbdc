/** From the names in the configuration to the restarts Docker performs:
    reordering by the Compose file, expansion into containers, and the restart
    loop that waits for each container before starting the next. */
module RestartOrder {
  import opened Text
  import opened Compose

  // ---------------------------------------------------------------- reordering

  /** The entries of `order` that are wanted, in that order. */
  function Kept(order: seq<string>, wanted: seq<string>): (kept: seq<string>)
    ensures forall n :: n in kept <==> n in order && n in wanted
  {
    if order == [] then []
    else
      var init := Kept(order[..|order|-1], wanted);
      var last := order[|order|-1];
      assert order == order[..|order|-1] + [last];
      if last in wanted then init + [last] else init
  }

  /** The names that are not in `known`, in the order given. */
  function Unknown(names: seq<string>, known: seq<string>): (rest: seq<string>)
    ensures forall n :: n in rest <==> n in names && n !in known
  {
    if names == [] then []
    else
      var init := Unknown(names[..|names|-1], known);
      var last := names[|names|-1];
      assert names == names[..|names|-1] + [last];
      if last !in known then init + [last] else init
  }

  /** What a Compose file says about restart order. */
  datatype ComposeFile = Unlocatable | Absent | Unusable | Loaded(order: seq<string>)

  /** The restart list after reordering; None is the error of an unlocatable file. */
  function Reordered(refs: seq<string>, file: ComposeFile): Option<seq<string>>
  {
    if |refs| < 2 then Some(refs)
    else match file
      case Unlocatable => None
      case Absent => Some(refs)
      case Unusable => Some(refs)
      case Loaded(order) => Some(Kept(order, refs) + Unknown(refs, order))
  }

  method FilterDependencyOrder(allOrder: seq<string>, targets: seq<string>) returns (filtered: seq<string>)
    ensures filtered == Kept(allOrder, targets)
  {
    var targetSet: set<string> := {};
    for i := 0 to |targets|
      invariant forall n :: n in targetSet <==> n in targets[..i]
    {
      TakeSnoc(targets, i);
      targetSet := targetSet + {targets[i]};
    }
    assert targets[..|targets|] == targets;
    filtered := [];
    for i := 0 to |allOrder|
      invariant filtered == Kept(allOrder[..i], targets)
    {
      assert allOrder[..i+1][..i] == allOrder[..i];
      if allOrder[i] in targetSet {
        filtered := filtered + [allOrder[i]];
      }
    }
    assert allOrder[..|allOrder|] == allOrder;
  }

  method ApplyDependencyOrder(refs: seq<string>, file: ComposeFile) returns (out: Option<seq<string>>)
    ensures out == Reordered(refs, file)
  {
    if |refs| < 2 {
      return Some(refs);
    }
    match file {
      case Unlocatable => return None;
      case Absent => return Some(refs);
      case Unusable => return Some(refs);
      case Loaded(order) =>
        var ordered := FilterDependencyOrder(order, refs);
        var known := set n | n in ordered;
        for i := 0 to |refs|
          invariant ordered == Kept(order, refs) + Unknown(refs[..i], order)
        {
          assert refs[..i+1][..i] == refs[..i];
          if refs[i] !in known {
            ordered := ordered + [refs[i]];
          }
        }
        assert refs[..|refs|] == refs;
        return Some(ordered);
    }
  }

  /** Reordering neither drops nor invents a name. */
  lemma ReorderingKeepsNames(refs: seq<string>, file: ComposeFile)
    requires Reordered(refs, file).Some?
    ensures Elems(Reordered(refs, file).value) == Elems(refs)
  {}

  /** It keeps each name as often as it was written, except that a name the
      Compose file knows is restarted once however often it was written. */
  lemma {:induction false} ReorderingCounts(refs: seq<string>, order: seq<string>, n: string)
    requires |refs| >= 2 && Distinct(order)
    ensures multiset(Reordered(refs, Loaded(order)).value)[n]
         == if n in order then (if n in refs then 1 else 0) else multiset(refs)[n]
  {
    KeptCount(order, refs, n);
    UnknownCount(refs, order, n);
  }

  lemma {:induction false} KeptCount(order: seq<string>, wanted: seq<string>, n: string)
    requires Distinct(order)
    ensures multiset(Kept(order, wanted))[n] == if n in order && n in wanted then 1 else 0
  {
    if order != [] {
      var init, last := order[..|order|-1], order[|order|-1];
      assert order == init + [last];
      assert forall i :: 0 <= i < |init| ==> init[i] == order[i] != last;
      KeptCount(init, wanted, n);
    }
  }

  lemma {:induction false} UnknownCount(names: seq<string>, known: seq<string>, n: string)
    ensures multiset(Unknown(names, known))[n] == if n in known then 0 else multiset(names)[n]
  {
    if names != [] {
      UnknownCount(names[..|names|-1], known, n);
      assert names == names[..|names|-1] + [names[|names|-1]];
    }
  }

  /** Where there is nothing to reorder by, the list stays as it was written;
      only a file that cannot be located is an error. */
  lemma UnorderedStaysAsWritten(refs: seq<string>, file: ComposeFile)
    ensures Reordered(refs, file).None? <==> file.Unlocatable? && |refs| >= 2
    ensures |refs| < 2 || file.Absent? || file.Unusable? ==> Reordered(refs, file) == Some(refs)
  {}

  /** `rest` holds the names that are not known, those at these ascending positions. */
  ghost predicate UnknownAt(names: seq<string>, known: seq<string>, rest: seq<string>, at: seq<nat>)
  {
    && |at| == |rest|
    && (forall i, j :: 0 <= i < j < |at| ==> at[i] < at[j])
    && (forall i :: 0 <= i < |at| ==> at[i] < |names| && names[at[i]] == rest[i] && rest[i] !in known)
    && (forall k :: 0 <= k < |names| && names[k] !in known ==> k in at)
  }

  /** The names the Compose file does not know come last, as they were written,
      repetitions included. */
  lemma UnknownNamesComeLast(refs: seq<string>, order: seq<string>)
      returns (known: seq<string>, rest: seq<string>, at: seq<nat>)
    requires |refs| >= 2
    ensures Reordered(refs, Loaded(order)) == Some(known + rest)
    ensures UnknownAt(refs, order, rest, at) && forall n :: n in known ==> n in order
  {
    known, rest := Kept(order, refs), Unknown(refs, order);
    at := FindUnknown(refs, order);
    hide Unknown, Kept, UnknownAt;
  }

  lemma {:induction false} FindUnknown(names: seq<string>, known: seq<string>) returns (at: seq<nat>)
    ensures UnknownAt(names, known, Unknown(names, known), at)
  {
    hide *;
    if names == [] {
      NothingUnknown(known);
      at := [];
    } else {
      var init, last := names[..|names|-1], names[|names|-1];
      assert names == init + [last];
      at := FindUnknown(init, known);
      UnknownSnoc(init, known, last);
      if last in known {
        KnownIsSkipped(init, known, Unknown(init, known), at, last);
      } else {
        OneMoreUnknown(init, known, Unknown(init, known), at, last);
        at := at + [|init|];
      }
    }
  }

  lemma NothingUnknown(known: seq<string>)
    ensures UnknownAt([], known, Unknown([], known), [])
  {}

  lemma UnknownSnoc(names: seq<string>, known: seq<string>, last: string)
    ensures Unknown(names + [last], known)
         == if last in known then Unknown(names, known) else Unknown(names, known) + [last]
  {
    assert (names + [last])[..|names|] == names;
  }

  lemma KnownIsSkipped(names: seq<string>, known: seq<string>, rest: seq<string>, at: seq<nat>, last: string)
    requires UnknownAt(names, known, rest, at) && last in known
    ensures UnknownAt(names + [last], known, rest, at)
  {}

  lemma OneMoreUnknown(names: seq<string>, known: seq<string>, rest: seq<string>, at: seq<nat>, last: string)
    requires UnknownAt(names, known, rest, at) && last !in known
    ensures UnknownAt(names + [last], known, rest + [last], at + [|names|])
  {
    var n := |names|;
    forall k | 0 <= k < n + 1 && (names + [last])[k] !in known ensures k in at + [n] {
      if k == n { assert (at + [n])[|at|] == n; }
    }
  }

  /** Filtering preserves relative order. */
  lemma {:induction false} KeptPreservesOrder(order: seq<string>, wanted: seq<string>, first: nat, second: nat)
      returns (i: nat, j: nat)
    requires first < second < |order| && order[first] in wanted && order[second] in wanted
    ensures i < j < |Kept(order, wanted)|
    ensures Kept(order, wanted)[i] == order[first] && Kept(order, wanted)[j] == order[second]
  {
    var init := order[..|order|-1];
    if second < |order| - 1 {
      i, j := KeptPreservesOrder(init, wanted, first, second);
    } else {
      assert init[first] == order[first];
      var k :| 0 <= k < |Kept(init, wanted)| && Kept(init, wanted)[k] == order[first];
      i, j := k, |Kept(init, wanted)|;
    }
  }

  /** If A depends on B through any chain and both are requested, B comes first. */
  lemma {:induction false} DependencyComesFirst(deps: Dependencies, nodes: set<string>, order: seq<string>,
                                                refs: seq<string>, walk: seq<string>, a: nat, b: nat)
    requires IsOrder(deps, nodes, order) && |refs| >= 2
    requires IsWalk(deps, walk) && |walk| >= 2 && walk[0] in nodes
    requires walk[0] in refs && walk[|walk|-1] in refs
    requires var out := Reordered(refs, Loaded(order)).value;
             a < |out| && b < |out| && out[a] == walk[0] && out[b] == walk[|walk|-1]
    ensures b < a
  {
    var out := Reordered(refs, Loaded(order)).value;
    assert walk[0] in Elems(order);
    var from :| 0 <= from < |order| && order[from] == walk[0];
    var to := WalkDescends(deps, order, walk, from);
    var i, j := KeptPreservesOrder(order, refs, to, from);
    assert out[i] == order[to] && out[j] == order[from];
    OccursOnce(refs, order, i, b);
    OccursOnce(refs, order, j, a);
  }

  lemma OccursOnce(refs: seq<string>, order: seq<string>, i: nat, j: nat)
    requires |refs| >= 2 && Distinct(order)
    requires var out := Reordered(refs, Loaded(order)).value;
             i < |out| && j < |out| && out[i] == out[j] && out[i] in order
    ensures i == j
  {
    var out := Reordered(refs, Loaded(order)).value;
    ReorderingCounts(refs, order, out[i]);
    SameTwice(out, i, j);
    SameTwice(out, j, i);
  }

  lemma SameTwice(s: seq<string>, i: nat, j: nat)
    requires i < |s| && j < |s| && s[i] == s[j]
    ensures i < j ==> multiset(s)[s[i]] >= 2
  {
    if i < j {
      assert s == s[..j] + s[j..] && s[..j][i] == s[i] && s[j..][0] == s[j];
    }
  }

  // ---------------------------------------------------------------- resolving names to containers

  /** What Docker reports about one container; "" stands for an absent label. */
  datatype Container = Container(name: string, service: string, project: string, number: string)

  ghost predicate IsNamed(all: seq<Container>, want: string)
  {
    want != "" && exists c :: c in all && c.name == want
  }

  /** The containers of a Compose service, in listing order. */
  function ServiceMembers(all: seq<Container>, want: string): (members: seq<Container>)
    ensures forall c :: c in members <==> c in all && c.service == want && want != ""
  {
    if all == [] then []
    else
      var init := ServiceMembers(all[..|all|-1], want);
      var last := all[|all|-1];
      assert all == all[..|all|-1] + [last];
      if last.service == want && want != "" then init + [last] else init
  }

  function Names(cs: seq<Container>): seq<string>
  {
    seq(|cs|, i requires 0 <= i < |cs| => cs[i].name)
  }

  ghost predicate OneProject(members: seq<Container>)
  {
    forall i, j :: 0 <= i < |members| && 0 <= j < |members| ==> Project(members[i]) == Project(members[j])
  }

  function Project(c: Container): string
  {
    if c.project == "" then "(none)" else c.project
  }

  /** A service is of one project exactly when all its containers carry the same
      project label, where a missing label is a project of its own. */
  lemma OneProjectMeans(members: seq<Container>)
    requires forall i :: 0 <= i < |members| ==> members[i].project != "(none)"
    ensures OneProject(members) <==>
              forall i, j :: 0 <= i < |members| && 0 <= j < |members| ==> members[i].project == members[j].project
  {
    if OneProject(members) {
      forall i, j | 0 <= i < |members| && 0 <= j < |members| ensures members[i].project == members[j].project {
        assert Project(members[i]) == Project(members[j]);
      }
    }
  }

  /** The comparator replicas are sorted with. */
  predicate ReplicaLess(a: Container, b: Container)
  {
    if a.number != b.number && a.number != "" && b.number != "" then
      if |a.number| != |b.number| then |a.number| < |b.number| else Less(a.number, b.number)
    else Less(a.name, b.name)
  }

  /** Replicas with numbers go by the value of the number, so 2 before 10. */
  lemma ReplicasGoByNumber(a: Container, b: Container)
    requires IsNumeral(a.number) && IsNumeral(b.number) && a.number != b.number
    ensures ReplicaLess(a, b) <==> Value(a.number) < Value(b.number)
  {
    NumeralOrder(a.number, b.number);
  }

  /** Without a number, or with the same one, they go by name. */
  lemma OthersGoByName(a: Container, b: Container)
    requires a.number == b.number || a.number == "" || b.number == ""
    ensures ReplicaLess(a, b) <==> ComesFirst(a.name, b.name)
  {
    LessMeans(a.name, b.name);
  }

  /** All replicas have a number, as Compose gives them, or none has. */
  ghost predicate Numbered(members: seq<Container>)
  {
    || (forall i :: 0 <= i < |members| ==> HasNumber(members[i]))
    || (forall i :: 0 <= i < |members| ==> HasNoNumber(members[i]))
  }

  predicate HasNumber(c: Container)
  {
    c.number != ""
  }

  predicate HasNoNumber(c: Container)
  {
    c.number == ""
  }

  ghost predicate InReplicaOrder(members: seq<Container>)
  {
    forall i, j :: 0 <= i < j < |members| ==> !ReplicaLess(members[j], members[i])
  }

  ghost predicate SortedReplicas(sorted: seq<Container>, members: seq<Container>)
  {
    && multiset(sorted) == multiset(members)
    && (Numbered(members) ==> InReplicaOrder(sorted))
    && (NamesDiffer(members) ==> (InReplicaOrder(sorted) <==> !Circular(members)))
  }

  /** `block` is what the requested name stands for. */
  ghost predicate IsBlock(all: seq<Container>, want: string, block: seq<string>)
  {
    if IsNamed(all, want) then block == [want]
    else
      && |ServiceMembers(all, want)| > 0
      && OneProject(ServiceMembers(all, want))
      && exists sorted :: SortedReplicas(sorted, ServiceMembers(all, want)) && block == Names(sorted)
  }

  ghost predicate Resolvable(all: seq<Container>, want: string)
  {
    IsNamed(all, want) || (|ServiceMembers(all, want)| > 0 && OneProject(ServiceMembers(all, want)))
  }

  function Concat(blocks: seq<seq<string>>): seq<string>
  {
    if blocks == [] then [] else Concat(blocks[..|blocks|-1]) + blocks[|blocks|-1]
  }

  /** One block per requested name.  Without an inventory each name stands for itself. */
  ghost predicate AreBlocks(listing: Option<seq<Container>>, requested: seq<string>, blocks: seq<seq<string>>)
  {
    && |blocks| == |requested|
    && forall i :: 0 <= i < |requested| ==>
         if listing.None? || listing.value == [] then blocks[i] == [requested[i]]
         else IsBlock(listing.value, requested[i], blocks[i])
  }

  lemma NotReplicaLessTransitive(a: Container, b: Container, c: Container)
    requires HasNumber(a) == HasNumber(b) == HasNumber(c)
    requires !ReplicaLess(b, a) && !ReplicaLess(c, b)
    ensures !ReplicaLess(c, a)
  {
    LessTotal(a.number, b.number);
    LessTotal(b.number, c.number);
    LessTotal(a.number, c.number);
    if Less(a.number, b.number) && Less(b.number, c.number) { LessTransitive(a.number, b.number, c.number); }
    if !Less(b.name, a.name) && !Less(c.name, b.name) { NotLessTransitive(a.name, b.name, c.name); }
  }

  lemma ReplicaLessAsymmetric(a: Container, b: Container)
    ensures ReplicaLess(a, b) ==> !ReplicaLess(b, a)
  {
    LessTotal(a.number, b.number);
    LessTotal(a.name, b.name);
  }

  /** A comparator that orders the values satisfying p. */
  ghost predicate Orders<T(!new)>(less: (T, T) -> bool, p: T -> bool)
  {
    && (forall x, y :: p(x) && p(y) && less(x, y) ==> !less(y, x))
    && (forall x, y, z :: p(x) && p(y) && p(z) && !less(y, x) && !less(z, y) ==> !less(z, x))
  }

  ghost predicate AllMeet<T>(a: array<T>, p: T -> bool)
    reads a
  {
    forall k :: 0 <= k < a.Length ==> p(a[k])
  }

  ghost predicate SortedUpTo<T>(a: array<T>, less: (T, T) -> bool, n: nat)
    reads a
  {
    forall i, j :: 0 <= i < j < n && j < a.Length ==> !less(a[j], a[i])
  }

  /** Moves entry i down to its place among the sorted entries before it. */
  method Sink<T(!new)>(a: array<T>, less: (T, T) -> bool, ghost p: T -> bool, i: nat, ghost orderly: bool)
    requires Orders(less, p) && i < a.Length
    requires orderly ==> AllMeet(a, p) && SortedUpTo(a, less, i)
    modifies a
    ensures multiset(a[..]) == multiset(old(a[..]))
    ensures orderly ==> AllMeet(a, p) && SortedUpTo(a, less, i + 1)
  {
    var j := i;
    while j > 0 && less(a[j], a[j-1])
      invariant 0 <= j <= i
      invariant multiset(a[..]) == multiset(old(a[..]))
      invariant orderly ==> AllMeet(a, p)
      invariant orderly ==> forall u, v :: 0 <= u < v <= i && v != j ==> !less(a[v], a[u])
    {
      ghost var before := a[..];
      SwapBack(a, j);
      assert forall k :: 0 <= k < a.Length ==> a[k] == a[..][k];
      assert forall k :: 0 <= k < a.Length && k != j && k != j - 1 ==> a[k] == before[k];
      j := j - 1;
    }
  }

  /** Sorting in place by a comparator: always a permutation, and in order when
      the comparator orders the values at hand. */
  method SortSlice<T(!new)>(a: array<T>, less: (T, T) -> bool, ghost p: T -> bool)
    requires Orders(less, p)
    modifies a
    ensures multiset(a[..]) == multiset(old(a[..]))
    ensures old(AllMeet(a, p)) ==> SortedUpTo(a, less, a.Length)
  {
    ghost var orderly := AllMeet(a, p);
    for i := 0 to a.Length
      invariant multiset(a[..]) == multiset(old(a[..]))
      invariant orderly ==> AllMeet(a, p) && SortedUpTo(a, less, i)
    {
      Sink(a, less, p, i, orderly);
    }
  }

  lemma ReplicaLessOrders()
    ensures Orders(ReplicaLess, HasNumber) && Orders(ReplicaLess, HasNoNumber)
  {
    forall a, b, c | !ReplicaLess(b, a) && !ReplicaLess(c, b) && HasNumber(a) == HasNumber(b) == HasNumber(c)
      ensures !ReplicaLess(c, a)
    {
      NotReplicaLessTransitive(a, b, c);
    }
    forall a, b | ReplicaLess(a, b) ensures !ReplicaLess(b, a) {
      ReplicaLessAsymmetric(a, b);
    }
  }

  /** The comparator goes in a circle, as it can where only some replicas have
      a number. */
  ghost predicate Circular(cs: seq<Container>)
  {
    exists a, b, c :: a in cs && b in cs && c in cs && ReplicaLess(a, b) && ReplicaLess(b, c) && ReplicaLess(c, a)
  }

  /** Docker gives each container a name of its own. */
  ghost predicate NamesDiffer(cs: seq<Container>)
  {
    forall i, j :: 0 <= i < j < |cs| ==> cs[i].name != cs[j].name
  }

  lemma NotCircularOrders(cs: seq<Container>)
    requires NamesDiffer(cs) && !Circular(cs)
    ensures Orders(ReplicaLess, c => c in cs)
  {
    forall a, b | ReplicaLess(a, b) ensures !ReplicaLess(b, a) {
      ReplicaLessAsymmetric(a, b);
    }
    forall a, b, c | a in cs && b in cs && c in cs && !ReplicaLess(b, a) && !ReplicaLess(c, b)
      ensures !ReplicaLess(c, a)
    {
      Comparable(cs, a, b);
      Comparable(cs, b, c);
      hide ReplicaLess;
    }
  }

  lemma Comparable(cs: seq<Container>, a: Container, b: Container)
    requires NamesDiffer(cs) && a in cs && b in cs
    ensures a == b || ReplicaLess(a, b) || ReplicaLess(b, a)
  {
    LessTotal(a.number, b.number);
    LessTotal(a.name, b.name);
  }

  lemma LessComesBefore(sorted: seq<Container>, i: nat, j: nat)
    requires i < |sorted| && j < |sorted| && ReplicaLess(sorted[i], sorted[j])
    ensures InReplicaOrder(sorted) ==> i < j
  {
    ReplicaLessAsymmetric(sorted[i], sorted[j]);
  }

  lemma CircularHasNoOrder(cs: seq<Container>, sorted: seq<Container>)
    requires Circular(cs) && multiset(sorted) == multiset(cs)
    ensures !InReplicaOrder(sorted)
  {
    var a, b, c :| a in cs && b in cs && c in cs && ReplicaLess(a, b) && ReplicaLess(b, c) && ReplicaLess(c, a);
    assert a in multiset(sorted) && b in multiset(sorted) && c in multiset(sorted);
    var i, j, k :| 0 <= i < |sorted| && 0 <= j < |sorted| && 0 <= k < |sorted| && sorted[i] == a && sorted[j] == b
      && sorted[k] == c;
    LessComesBefore(sorted, i, j);
    LessComesBefore(sorted, j, k);
    LessComesBefore(sorted, k, i);
  }

  /** Such replicas: the numbers say a after c, the names say a, b, c. */
  lemma CircularHappens()
    ensures Circular([Container("a", "web", "app", "2"), Container("b", "web", "app", ""),
                      Container("c", "web", "app", "1")])
  {
    var a, b, c := Container("a", "web", "app", "2"), Container("b", "web", "app", ""),
      Container("c", "web", "app", "1");
    assert ReplicaLess(a, b) && ReplicaLess(b, c) && ReplicaLess(c, a);
  }

  /** Sorts replicas in place, lowest number first: in order when all or none
      have a number, and in general exactly when there is an order. */
  method SortByReplica(a: array<Container>)
    modifies a
    ensures multiset(a[..]) == multiset(old(a[..]))
    ensures Numbered(old(a[..])) ==> InReplicaOrder(a[..])
    ensures NamesDiffer(old(a[..])) ==> (InReplicaOrder(a[..]) <==> !Circular(old(a[..])))
  {
    hide ReplicaLess, Circular;
    ghost var was := a[..];
    ghost var p: Container -> bool := c => false;
    ReplicaLessOrders();
    assert forall k :: 0 <= k < a.Length ==> was[k] == a[k];
    if NamesDiffer(was) && !Circular(was) {
      NotCircularOrders(was);
      p := c => c in was;
    } else if AllMeet(a, HasNumber) {
      p := HasNumber;
    } else if AllMeet(a, HasNoNumber) {
      p := HasNoNumber;
    }
    assert Numbered(was) || (NamesDiffer(was) && !Circular(was)) ==> AllMeet(a, p);
    SortSlice(a, ReplicaLess, p);
    if Circular(was) {
      CircularHasNoOrder(was, a[..]);
    }
  }

  /** Maps each requested name to its containers: an exact container name, or
      every replica of a Compose service.  Fails exactly when some name matches
      nothing, or matches a service of several projects. */
  method ResolveContainerNames(listing: Option<seq<Container>>, requested: seq<string>)
      returns (resolved: Option<seq<string>>, ghost blocks: seq<seq<string>>)
    ensures resolved.Some? ==> AreBlocks(listing, requested, blocks) && resolved.value == Concat(blocks)
    ensures resolved.None? <==> listing.Some? && listing.value != [] &&
                                exists i :: 0 <= i < |requested| && !Resolvable(listing.value, requested[i])
  {
    blocks := [];
    if listing.None? || |listing.value| == 0 {
      EachAlone(requested);
      return Some(requested), Alone(requested);
    }
    hide IsBlock, Resolvable, Concat;
    NoBlocks();
    var all := listing.value;
    var out: seq<string> := [];
    for i := 0 to |requested|
      invariant |blocks| == i && out == Concat(blocks)
      invariant forall k :: 0 <= k < i ==> IsBlock(all, requested[k], blocks[k])
      invariant forall k :: 0 <= k < i ==> Resolvable(all, requested[k])
    {
      var block := ResolveOne(all, requested[i]);
      if block.None? {
        return None, blocks;
      }
      ConcatSnoc(blocks, block.value);
      out, blocks := out + block.value, blocks + [block.value];
    }
    resolved := Some(out);
  }

  /** Each name as a block of its own. */
  ghost function Alone(names: seq<string>): (blocks: seq<seq<string>>)
    ensures |blocks| == |names| && forall i :: 0 <= i < |names| ==> blocks[i] == [names[i]]
  {
    seq(|names|, i requires 0 <= i < |names| => [names[i]])
  }

  lemma {:induction false} EachAlone(names: seq<string>)
    ensures Concat(Alone(names)) == names
  {
    if names != [] {
      var init := names[..|names|-1];
      EachAlone(init);
      assert Alone(names)[..|names|-1] == Alone(init);
    }
  }

  lemma NoBlocks()
    ensures Concat([]) == []
  {}

  lemma ConcatSnoc(blocks: seq<seq<string>>, block: seq<string>)
    ensures Concat(blocks + [block]) == Concat(blocks) + block
  {
    assert (blocks + [block])[..|blocks|] == blocks;
  }

  /** Finds the containers of that name and the members of that service. */
  method Inventory(all: seq<Container>, want: string) returns (named: bool, members: seq<Container>)
    ensures named <==> IsNamed(all, want)
    ensures members == ServiceMembers(all, want)
  {
    hide ServiceMembers, IsNamed;
    named, members := false, [];
    NoInventory(want);
    for i := 0 to |all|
      invariant members == ServiceMembers(all[..i], want) && (named <==> IsNamed(all[..i], want))
    {
      OneMoreContainer(all[..i], all[i], want);
      TakeSnoc(all, i);
      if all[i].name != "" && all[i].name == want {
        named := true;
      }
      if all[i].service != "" && all[i].service == want {
        members := members + [all[i]];
      }
    }
    assert all[..|all|] == all;
  }

  lemma NoInventory(want: string)
    ensures ServiceMembers([], want) == [] && !IsNamed([], want)
  {}

  lemma OneMoreContainer(all: seq<Container>, c: Container, want: string)
    ensures IsNamed(all + [c], want) <==> IsNamed(all, want) || (c.name == want && want != "")
    ensures ServiceMembers(all + [c], want)
         == if c.service == want && want != "" then ServiceMembers(all, want) + [c] else ServiceMembers(all, want)
  {
    assert (all + [c])[..|all|] == all;
    if IsNamed(all, want) {
      var d :| d in all && d.name == want;
      assert d in all + [c];
    }
    assert c in all + [c];
  }

  /** Whether all members belong to the same project. */
  method InOneProject(members: seq<Container>) returns (single: bool)
    requires |members| > 0
    ensures single <==> OneProject(members)
  {
    for i := 1 to |members|
      invariant forall k :: 0 <= k < i ==> Project(members[k]) == Project(members[0])
    {
      if Project(members[i]) != Project(members[0]) {
        return false;
      }
    }
    single := true;
  }

  method ResolveOne(all: seq<Container>, want: string) returns (block: Option<seq<string>>)
    ensures block.Some? <==> Resolvable(all, want)
    ensures block.Some? ==> IsBlock(all, want, block.value)
  {
    var named, members := Inventory(all, want);
    if named {
      return Some([want]);
    }
    if |members| == 0 {
      return None;
    }
    hide ReplicaLess, ServiceMembers, IsNamed, InReplicaOrder, Circular, NamesDiffer;
    var single := InOneProject(members);
    if !single {
      return None;
    }
    var a := new Container[|members|](k requires 0 <= k < |members| => members[k]);
    assert a[..] == members;
    SortByReplica(a);
    assert SortedReplicas(a[..], members);
    block := Some(Names(a[..]));
  }

  // ---------------------------------------------------------------- the restart loop

  datatype Event = Restarted(container: string) | Healthy(container: string)

  /** The trace of a loop in which nothing fails. */
  function FullTrace(names: seq<string>): (trace: seq<Event>)
    ensures |trace| == 2 * |names|
  {
    if names == [] then []
    else
      var last := names[|names|-1];
      FullTrace(names[..|names|-1]) + [Restarted(last), Healthy(last)]
  }

  lemma {:induction false} TraceAt(names: seq<string>, i: nat)
    requires i < |names|
    ensures FullTrace(names)[2*i] == Restarted(names[i]) && FullTrace(names)[2*i+1] == Healthy(names[i])
  {
    if i < |names| - 1 {
      TraceAt(names[..|names|-1], i);
    }
  }

  lemma TraceSnoc(names: seq<string>, i: nat)
    requires i < |names|
    ensures FullTrace(names)[..2*i+1] == FullTrace(names)[..2*i] + [Restarted(names[i])]
    ensures FullTrace(names)[..2*i+2] == FullTrace(names)[..2*i] + [Restarted(names[i])] + [Healthy(names[i])]
  {
    hide FullTrace;
    TraceAt(names, i);
  }

  /** Restarts the containers one by one; step 2i is the restart of container i
      and step 2i+1 the wait for its health.  A failure leaves a prefix. */
  method RestartInOrder(names: seq<string>, succeeds: nat -> bool) returns (ok: bool, trace: seq<Event>)
    ensures trace <= FullTrace(names)
    ensures ok <==> trace == FullTrace(names)
    ensures forall k: nat :: k < |trace| ==> succeeds(k)
    ensures !ok ==> !succeeds(|trace|)
  {
    hide FullTrace;
    trace := [];
    for i := 0 to |names|
      invariant trace == FullTrace(names)[..2*i]
      invariant forall k: nat :: k < 2*i ==> succeeds(k)
    {
      TraceSnoc(names, i);
      if !succeeds(2*i) {
        return false, trace;
      }
      trace := trace + [Restarted(names[i])];
      if !succeeds(2*i+1) {
        return false, trace;
      }
      trace := trace + [Healthy(names[i])];
    }
    ok := true;
  }

  // ---------------------------------------------------------------- end to end

  /** Where block i starts in the concatenation. */
  function Offset(blocks: seq<seq<string>>, i: nat): nat
    requires i <= |blocks|
  {
    |Concat(blocks[..i])|
  }

  lemma {:induction false} OffsetsGrow(blocks: seq<seq<string>>, i: nat, j: nat)
    requires i <= j <= |blocks|
    ensures Offset(blocks, i) <= Offset(blocks, j) <= |Concat(blocks)|
    ensures i < |blocks| ==> Offset(blocks, i + 1) == Offset(blocks, i) + |blocks[i]|
    decreases |blocks| - i
  {
    assert blocks[..|blocks|] == blocks;
    if i < |blocks| {
      TakeSnoc(blocks, i);
      ConcatSnoc(blocks[..i], blocks[i]);
      OffsetsGrow(blocks, i + 1, if i < j then j else i + 1);
      if i == j { OffsetsGrow(blocks, i + 1, |blocks|); }
    }
  }

  /** Every position of the concatenation lies in one block. */
  lemma {:induction false} BlockEntry(blocks: seq<seq<string>>, i: nat, k: nat)
    requires i < |blocks| && k < |blocks[i]|
    ensures Offset(blocks, i) + k < |Concat(blocks)|
    ensures Concat(blocks)[Offset(blocks, i) + k] == blocks[i][k]
  {
    var init, last := blocks[..|blocks|-1], blocks[|blocks|-1];
    if i < |blocks| - 1 {
      assert init[..i] == blocks[..i];
      BlockEntry(init, i, k);
    }
  }

  lemma {:induction false} FindBlock(blocks: seq<seq<string>>, p: nat) returns (i: nat, k: nat)
    requires p < |Concat(blocks)|
    ensures i < |blocks| && k < |blocks[i]| && p == Offset(blocks, i) + k
  {
    var init, last := blocks[..|blocks|-1], blocks[|blocks|-1];
    if p < |Concat(init)| {
      i, k := FindBlock(init, p);
      assert init[..i] == blocks[..i];
    } else {
      i, k := |blocks| - 1, p - |Concat(init)|;
    }
  }

  /** End to end: A depends on B through any chain of services, requested or
      not.  Whenever the loop gets to restarting an entry of A, every container of
      B has been restarted and was healthy, also when the loop stops early. */
  lemma RestartFollowsDependencies(deps: Dependencies, nodes: set<string>, order: seq<string>,
                                   refs: seq<string>, walk: seq<string>, a: nat, b: nat,
                                   blocks: seq<seq<string>>, trace: seq<Event>, m: nat, k: nat)
    requires IsOrder(deps, nodes, order) && |refs| >= 2
    requires IsWalk(deps, walk) && |walk| >= 2 && walk[0] in nodes
    requires walk[0] in refs && walk[|walk|-1] in refs
    requires var out := Reordered(refs, Loaded(order)).value;
             a < |out| && b < |out| && out[a] == walk[0] && out[b] == walk[|walk|-1] && |blocks| == |out|
    requires trace <= FullTrace(Concat(blocks))
    requires m < |blocks[a]| && 2 * (Offset(blocks, a) + m) < |trace| && k < |blocks[b]|
    ensures var t := 2 * (Offset(blocks, a) + m);
            && trace[t] == Restarted(blocks[a][m])
            && exists u, v :: 0 <= u < v < t && trace[u] == Restarted(blocks[b][k]) && trace[v] == Healthy(blocks[b][k])
  {
    DependencyComesFirst(deps, nodes, order, refs, walk, a, b);
    hide *;
    LaterBlockRestartsLater(blocks, trace, a, m, b, k);
  }

  lemma LaterBlockRestartsLater(blocks: seq<seq<string>>, trace: seq<Event>, a: nat, m: nat, b: nat, k: nat)
    requires b < a < |blocks| && trace <= FullTrace(Concat(blocks))
    requires m < |blocks[a]| && 2 * (Offset(blocks, a) + m) < |trace| && k < |blocks[b]|
    ensures var t := 2 * (Offset(blocks, a) + m);
            && trace[t] == Restarted(blocks[a][m])
            && exists u, v :: 0 <= u < v < t && trace[u] == Restarted(blocks[b][k]) && trace[v] == Healthy(blocks[b][k])
  {
    hide Concat, FullTrace, Offset;
    var names := Concat(blocks);
    var p, q := Offset(blocks, a) + m, Offset(blocks, b) + k;
    BlockEntry(blocks, a, m);
    BlockEntry(blocks, b, k);
    OffsetsGrow(blocks, b, a);
    OffsetsGrow(blocks, b + 1, a);
    TraceAt(names, p);
    TraceAt(names, q);
    assert trace[2*p] == FullTrace(names)[2*p];
    assert trace[2*q] == FullTrace(names)[2*q] && trace[2*q+1] == FullTrace(names)[2*q+1];
  }

  /** Every restart in the trace belongs to an entry of some service, so a
      container that neither B nor a service before it brings in is restarted
      only after every container of B. */
  lemma FirstRestartFollows(blocks: seq<seq<string>>, trace: seq<Event>, t: nat, b: nat, k: nat)
    requires b < |blocks| && trace <= FullTrace(Concat(blocks))
    requires t < |trace| && trace[t].Restarted? && k < |blocks[b]|
    requires forall i :: 0 <= i <= b ==> trace[t].container !in blocks[i]
    ensures exists u, v :: 0 <= u < v < t && trace[u] == Restarted(blocks[b][k]) && trace[v] == Healthy(blocks[b][k])
  {
    hide Concat, FullTrace, Offset;
    assert trace[t] == FullTrace(Concat(blocks))[t];
    var i, m := RestartedFor(blocks, t);
    LaterBlockRestartsLater(blocks, trace, i, m, b, k);
  }

  /** The entry on whose account step t of the full trace restarts a container. */
  lemma RestartedFor(blocks: seq<seq<string>>, t: nat) returns (i: nat, m: nat)
    requires t < |FullTrace(Concat(blocks))| && FullTrace(Concat(blocks))[t].Restarted?
    ensures i < |blocks| && m < |blocks[i]| && t == 2 * (Offset(blocks, i) + m)
    ensures FullTrace(Concat(blocks))[t] == Restarted(blocks[i][m])
  {
    hide Concat, FullTrace, Offset;
    var p := t / 2;
    assert t == 2 * p || t == 2 * p + 1;
    TraceAt(Concat(blocks), p);
    i, m := FindBlock(blocks, p);
    BlockEntry(blocks, i, m);
  }

  /** No restart of this container comes before step `from`. */
  ghost predicate NotRestartedBefore(trace: seq<Event>, c: string, from: nat)
  {
    forall t :: 0 <= t < |trace| && trace[t] == Restarted(c) ==> from <= t
  }

  ghost predicate NewAfter(blocks: seq<seq<string>>, c: string, b: nat)
    requires b < |blocks|
  {
    forall i :: 0 <= i <= b ==> c !in blocks[i]
  }

  lemma OldIsRestartedBefore(blocks: seq<seq<string>>, b: nat, i: nat, m: nat)
    requires i <= b < |blocks| && m < |blocks[i]|
    ensures !NotRestartedBefore(FullTrace(Concat(blocks)), blocks[i][m], 2 * Offset(blocks, b + 1))
  {
    hide Concat, FullTrace, Offset;
    var p := Offset(blocks, i) + m;
    BlockEntry(blocks, i, m);
    OffsetsGrow(blocks, i, b);
    OffsetsGrow(blocks, i + 1, b + 1);
    TraceAt(Concat(blocks), p);
    assert FullTrace(Concat(blocks))[2*p] == Restarted(blocks[i][m]);
  }

  lemma NewIsNotRestartedBefore(blocks: seq<seq<string>>, b: nat, c: string)
    requires b < |blocks| && NewAfter(blocks, c, b)
    ensures NotRestartedBefore(FullTrace(Concat(blocks)), c, 2 * Offset(blocks, b + 1))
  {
    hide Concat, FullTrace, Offset;
    var trace := FullTrace(Concat(blocks));
    forall t | 0 <= t < |trace| && trace[t] == Restarted(c) ensures 2 * Offset(blocks, b + 1) <= t {
      var i, m := RestartedFor(blocks, t);
      OffsetsGrow(blocks, b + 1, i);
    }
  }

  /** In a trace without failure, all restarts of a container come after B and
      everything before it exactly when none of those services brings it in. */
  lemma RestartsFollowExactlyWhenNew(blocks: seq<seq<string>>, b: nat, c: string)
    requires b < |blocks|
    ensures NotRestartedBefore(FullTrace(Concat(blocks)), c, 2 * Offset(blocks, b + 1)) <==> NewAfter(blocks, c, b)
  {
    hide Concat, FullTrace, Offset, NotRestartedBefore;
    if NewAfter(blocks, c, b) {
      NewIsNotRestartedBefore(blocks, b, c);
    } else {
      var i :| 0 <= i <= b && c in blocks[i];
      var m :| 0 <= m < |blocks[i]| && blocks[i][m] == c;
      OldIsRestartedBefore(blocks, b, i, m);
    }
  }
}
