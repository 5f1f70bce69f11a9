// What a change reaches, said of the dependencies themselves (architecture/impact.py).
module ImpactLaws {
  import opened Lists
  import opened Sorting
  import opened CodeGraph
  import opened Matching
  import opened DependencySummary
  import opened Dependencies
  import opened Impact

  ghost predicate OnBoundary(r: Reached, touched: set<string>) {
    r.key.componentId !in touched && r.key.viaComponentId in touched
  }

  lemma {:induction false} RegisterKeys(reached: seq<Reached>, key: ReachKey, kind: DependencyKind, count: nat,
                                        r: Reached)
    requires r in Register(reached, key, kind, count)
    ensures r.key == key || r in reached
  {
    if reached != [] && reached[0].key != key && r != reached[0] {
      RegisterKeys(reached[1..], key, kind, count, r);
    }
  }

  // No reached component is touched, and it is reached through a touched one.
  lemma {:induction false} ReachedIsOutside(dependencies: seq<Dependency>, touched: set<string>)
    ensures forall r | r in ReachedBy(dependencies, touched) :: OnBoundary(r, touched)
  {
    if dependencies != [] {
      var init, d := dependencies[..|dependencies| - 1], dependencies[|dependencies| - 1];
      ReachedIsOutside(init, touched);
      if Registers(d.key, touched).Some? {
        var key := Registers(d.key, touched).value;
        forall r | r in ReachedBy(dependencies, touched) ensures OnBoundary(r, touched) {
          RegisterKeys(ReachedBy(init, touched), key, d.key.kind, d.count, r);
        }
      }
    }
  }

  function Total(reached: seq<Reached>): nat {
    if reached == [] then 0 else reached[0].count + Total(reached[1..])
  }

  function ReachCount(reached: seq<Reached>, key: ReachKey): nat {
    if reached == [] then 0 else if reached[0].key == key then reached[0].count else ReachCount(reached[1..], key)
  }

  lemma {:induction false} RegisterTotal(reached: seq<Reached>, key: ReachKey, kind: DependencyKind, count: nat)
    ensures Total(Register(reached, key, kind, count)) == Total(reached) + count
  {
    if reached == [] {
    } else if reached[0].key == key {
      assert Register(reached, key, kind, count)[1..] == reached[1..];
    } else {
      RegisterTotal(reached[1..], key, kind, count);
      assert Register(reached, key, kind, count)[1..] == Register(reached[1..], key, kind, count);
    }
  }

  lemma {:induction false} RegisterCount(reached: seq<Reached>, key: ReachKey, kind: DependencyKind, count: nat,
                                         other: ReachKey)
    ensures ReachCount(Register(reached, key, kind, count), other)
         == ReachCount(reached, other) + if other == key then count else 0
  {
    if reached != [] && reached[0].key != key {
      RegisterCount(reached[1..], key, kind, count, other);
    }
  }

  function Crossing(touched: set<string>): Entry -> bool {
    (e: Entry) => (e.key.source in touched) != (e.key.target in touched)
  }

  function RegisteredAs(touched: set<string>, key: ReachKey): Entry -> bool {
    (e: Entry) => Registers(e.key, touched) == Some(key)
  }

  // The counts of the dependencies that pass a test on their key.
  function CrossingTotal(dependencies: seq<Dependency>, touched: set<string>): nat {
    if dependencies == [] then 0
    else CrossingTotal(dependencies[..|dependencies| - 1], touched)
         + (var d := dependencies[|dependencies| - 1]; if Registers(d.key, touched).Some? then d.count else 0)
  }

  function RegisteredTotal(dependencies: seq<Dependency>, touched: set<string>, key: ReachKey): nat {
    if dependencies == [] then 0
    else RegisteredTotal(dependencies[..|dependencies| - 1], touched, key)
         + (var d := dependencies[|dependencies| - 1]; if Registers(d.key, touched) == Some(key) then d.count else 0)
  }

  lemma {:induction false} ReachedTotal(dependencies: seq<Dependency>, touched: set<string>)
    ensures Total(ReachedBy(dependencies, touched)) == CrossingTotal(dependencies, touched)
  {
    if dependencies != [] {
      var init, d := dependencies[..|dependencies| - 1], dependencies[|dependencies| - 1];
      ReachedTotal(init, touched);
      if Registers(d.key, touched).Some? {
        RegisterTotal(ReachedBy(init, touched), Registers(d.key, touched).value, d.key.kind, d.count);
      }
    }
  }

  lemma {:induction false} ReachedCount(dependencies: seq<Dependency>, touched: set<string>, key: ReachKey)
    ensures ReachCount(ReachedBy(dependencies, touched), key) == RegisteredTotal(dependencies, touched, key)
  {
    if dependencies != [] {
      var init, d := dependencies[..|dependencies| - 1], dependencies[|dependencies| - 1];
      ReachedCount(init, touched, key);
      if Registers(d.key, touched).Some? {
        RegisterCount(ReachedBy(init, touched), Registers(d.key, touched).value, d.key.kind, d.count, key);
      }
    }
  }

  lemma {:induction false} CrossingAppend(xs: seq<Dependency>, ys: seq<Dependency>, touched: set<string>, key: ReachKey)
    ensures CrossingTotal(xs + ys, touched) == CrossingTotal(xs, touched) + CrossingTotal(ys, touched)
    ensures RegisteredTotal(xs + ys, touched, key)
        == RegisteredTotal(xs, touched, key) + RegisteredTotal(ys, touched, key)
  {
    if ys == [] {
      assert xs + ys == xs;
    } else {
      assert (xs + ys)[..|xs + ys| - 1] == xs + ys[..|ys| - 1];
      CrossingAppend(xs, ys[..|ys| - 1], touched, key);
    }
  }

  lemma CrossingOne(d: Dependency, touched: set<string>, key: ReachKey)
    ensures CrossingTotal([d], touched) == if Registers(d.key, touched).Some? then d.count else 0
    ensures RegisteredTotal([d], touched, key) == if Registers(d.key, touched) == Some(key) then d.count else 0
  {
    assert [d][..0] == [];
  }

  // One more entry adds one to the totals it belongs to.
  lemma {:induction false} AddToTotals(items: seq<Dependency>, e: Entry, touched: set<string>, key: ReachKey)
    ensures CrossingTotal(AddTo(items, e), touched)
        == CrossingTotal(items, touched) + if Crossing(touched)(e) then 1 else 0
    ensures RegisteredTotal(AddTo(items, e), touched, key)
         == RegisteredTotal(items, touched, key) + if RegisteredAs(touched, key)(e) then 1 else 0
  {
    if items == [] {
      CrossingOne(Bump(Dependency(e.key, 0, []), e.evidence), touched, key);
    } else {
      assert items == [items[0]] + items[1..];
      CrossingAppend([items[0]], items[1..], touched, key);
      CrossingOne(items[0], touched, key);
      if items[0].key == e.key {
        CrossingAppend([Bump(items[0], e.evidence)], items[1..], touched, key);
        CrossingOne(Bump(items[0], e.evidence), touched, key);
      } else {
        AddToTotals(items[1..], e, touched, key);
        CrossingAppend([items[0]], AddTo(items[1..], e), touched, key);
      }
    }
  }

  lemma {:induction false} SummaryTotals(entries: seq<Entry>, touched: set<string>, key: ReachKey)
    ensures CrossingTotal(Summary(entries), touched) == |Filter(entries, Crossing(touched))|
    ensures RegisteredTotal(Summary(entries), touched, key) == |Filter(entries, RegisteredAs(touched, key))|
  {
    if entries != [] {
      SummaryTotals(entries[..|entries| - 1], touched, key);
      AddToTotals(Summary(entries[..|entries| - 1]), entries[|entries| - 1], touched, key);
    }
  }

  // The totals do not depend on the order of the dependencies.
  lemma {:induction false} InsertTotals(xs: seq<Dependency>, x: Dependency, le: (Dependency, Dependency) -> bool,
                                        touched: set<string>, key: ReachKey)
    ensures CrossingTotal(Insert(xs, x, le), touched) == CrossingTotal(xs, touched) + CrossingTotal([x], touched)
    ensures RegisteredTotal(Insert(xs, x, le), touched, key)
         == RegisteredTotal(xs, touched, key) + RegisteredTotal([x], touched, key)
  {
    if xs != [] {
      var init, last := xs[..|xs| - 1], xs[|xs| - 1];
      InitLast(xs);
      CrossingAppend(init, [last], touched, key);
      if le(last, x) {
        CrossingAppend(xs, [x], touched, key);
      } else {
        InsertTotals(init, x, le, touched, key);
        CrossingAppend(Insert(init, x, le), [last], touched, key);
      }
    }
  }

  lemma {:induction false} SortTotals(xs: seq<Dependency>, le: (Dependency, Dependency) -> bool, touched: set<string>,
                                      key: ReachKey)
    ensures CrossingTotal(SortBy(xs, le), touched) == CrossingTotal(xs, touched)
    ensures RegisteredTotal(SortBy(xs, le), touched, key) == RegisteredTotal(xs, touched, key)
  {
    if xs != [] {
      var init, last := xs[..|xs| - 1], xs[|xs| - 1];
      InitLast(xs);
      SortTotals(init, le, touched, key);
      InsertTotals(SortBy(init, le), last, le, touched, key);
      CrossingAppend(init, [last], touched, key);
    }
  }

  // The counts add up to the number of symbol edges and calls with exactly one touched
  // end, and each count is the number of those between that component and the touched
  // one, in that direction.
  lemma ReachedCountsEntries(entries: seq<Entry>, le: (Dependency, Dependency) -> bool, touched: set<string>,
                             key: ReachKey)
    ensures (var reached := ReachedBy(SortBy(Summary(entries), le), touched);
             && Total(reached) == |Filter(entries, Crossing(touched))|
             && ReachCount(reached, key) == |Filter(entries, RegisteredAs(touched, key))|)
  {
    var dependencies := SortBy(Summary(entries), le);
    ReachedTotal(dependencies, touched);
    ReachedCount(dependencies, touched, key);
    SortTotals(Summary(entries), le, touched, key);
    SummaryTotals(entries, touched, key);
  }

  function KindsOf(reached: seq<Reached>, key: ReachKey): seq<DependencyKind> {
    if reached == [] then [] else if reached[0].key == key then reached[0].kinds else KindsOf(reached[1..], key)
  }

  lemma {:induction false} RegisterKinds(reached: seq<Reached>, key: ReachKey, kind: DependencyKind, count: nat,
                                         other: ReachKey)
    ensures (var kinds := KindsOf(reached, other);
             KindsOf(Register(reached, key, kind, count), other)
             == if other == key && kind !in kinds then kinds + [kind] else kinds)
  {
    if reached != [] && reached[0].key != key {
      RegisterKinds(reached[1..], key, kind, count, other);
    }
  }

  ghost predicate ReachedAs(d: Dependency, touched: set<string>, key: ReachKey, kind: DependencyKind) {
    Registers(d.key, touched) == Some(key) && d.key.kind == kind
  }

  // A reached component lists each kind of dependency it is reached by once.
  lemma {:induction false} ReachedKinds(dependencies: seq<Dependency>, touched: set<string>, key: ReachKey,
                                        kind: DependencyKind)
    ensures Distinct(KindsOf(ReachedBy(dependencies, touched), key))
    ensures kind in KindsOf(ReachedBy(dependencies, touched), key) <==> AnyReaches(dependencies, touched, key, kind)
  {
    if dependencies != [] {
      var init, d := dependencies[..|dependencies| - 1], dependencies[|dependencies| - 1];
      ReachedKinds(init, touched, key, kind);
      InitLast(dependencies);
      AnyReachesSnoc(init, d, touched, key, kind);
      if Registers(d.key, touched).Some? {
        RegisterKinds(ReachedBy(init, touched), Registers(d.key, touched).value, d.key.kind, d.count, key);
      }
    }
  }

  ghost predicate AnyReaches(dependencies: seq<Dependency>, touched: set<string>, key: ReachKey, kind: DependencyKind) {
    exists d :: d in dependencies && ReachedAs(d, touched, key, kind)
  }

  lemma AnyReachesSnoc(init: seq<Dependency>, d: Dependency, touched: set<string>, key: ReachKey, kind: DependencyKind)
    ensures AnyReaches(init + [d], touched, key, kind)
       <==> AnyReaches(init, touched, key, kind) || ReachedAs(d, touched, key, kind)
  {
    assert forall x :: x in init + [d] <==> x in init || x == d;
    if AnyReaches(init, touched, key, kind) {
      var x :| x in init && ReachedAs(x, touched, key, kind);
      assert x in init + [d];
    }
    if ReachedAs(d, touched, key, kind) {
      assert d in init + [d];
    }
  }

  // ---- The whole list of reached components ------------------------------------------------------

  ghost predicate DistinctReached(reached: seq<Reached>) {
    forall i, j | 0 <= i < j < |reached| :: reached[i].key != reached[j].key
  }

  lemma PrependReached(r: Reached, reached: seq<Reached>)
    requires DistinctReached(reached) && forall x | x in reached :: x.key != r.key
    ensures DistinctReached([r] + reached)
  {
    forall j: nat | j < |reached| ensures reached[j].key != r.key {
      assert reached[j] in reached;
    }
  }

  lemma TailReached(reached: seq<Reached>)
    requires DistinctReached(reached) && reached != []
    ensures DistinctReached(reached[1..]) && forall r | r in reached[1..] :: r.key != reached[0].key && r in reached
  {
    forall r | r in reached[1..] ensures r.key != reached[0].key && r in reached {
      var j: nat :| j < |reached[1..]| && reached[1..][j] == r;
      assert reached[j + 1] == r;
    }
  }

  lemma {:induction false} RegisterDistinct(reached: seq<Reached>, key: ReachKey, kind: DependencyKind, count: nat)
    requires DistinctReached(reached)
    ensures DistinctReached(Register(reached, key, kind, count))
  {
    if reached != [] {
      TailReached(reached);
      if reached[0].key == key {
        PrependReached(Extend(reached[0], kind, count), reached[1..]);
      } else {
        RegisterDistinct(reached[1..], key, kind, count);
        forall r | r in Register(reached[1..], key, kind, count) ensures r.key != reached[0].key {
          RegisterKeys(reached[1..], key, kind, count, r);
        }
        PrependReached(reached[0], Register(reached[1..], key, kind, count));
      }
    }
  }

  lemma {:induction false} ReachedDistinct(dependencies: seq<Dependency>, touched: set<string>)
    ensures DistinctReached(ReachedBy(dependencies, touched))
  {
    if dependencies != [] {
      var init, d := dependencies[..|dependencies| - 1], dependencies[|dependencies| - 1];
      ReachedDistinct(init, touched);
      if Registers(d.key, touched).Some? {
        RegisterDistinct(ReachedBy(init, touched), Registers(d.key, touched).value, d.key.kind, d.count);
      }
    }
  }

  lemma {:induction false} ListedReach(reached: seq<Reached>, r: Reached)
    requires DistinctReached(reached) && r in reached
    ensures ReachCount(reached, r.key) == r.count && KindsOf(reached, r.key) == r.kinds
  {
    TailReached(reached);
    if r != reached[0] {
      ListedReach(reached[1..], r);
    }
  }

  lemma {:induction false} CountedReach(reached: seq<Reached>, key: ReachKey)
    requires ReachCount(reached, key) > 0
    ensures exists r :: r in reached && r.key == key
  {
    if reached[0].key == key {
      assert reached[0] in reached;
    } else {
      CountedReach(reached[1..], key);
      var r :| r in reached[1..] && r.key == key;
      assert r in reached;
    }
  }

  // What a reached component and its neighbour depend on each other by: a touched
  // component that depends on it is provided for, one it depends on is consumed.
  function KeyOf(r: ReachKey, kind: DependencyKind): Key {
    match r.direction
    case Provides => Key(r.viaComponentId, r.componentId, kind)
    case Consumes => Key(r.componentId, r.viaComponentId, kind)
  }

  function Between(r: ReachKey): Entry -> bool {
    (e: Entry) => e.key == KeyOf(r, e.key.kind)
  }

  ghost predicate OfKind(entries: seq<Entry>, r: ReachKey, kind: DependencyKind) {
    exists e :: e in entries && e.key == KeyOf(r, kind)
  }

  // Exactly one of its ends is touched.
  predicate Crosses(k: Key, touched: set<string>) {
    (k.source in touched) != (k.target in touched)
  }

  ghost predicate IsReached(reached: seq<Reached>, k: Key) {
    exists r :: r in reached && k == KeyOf(r.key, k.kind)
  }

  // Each component next to a touched one is listed once per neighbour and direction: it is
  // not touched itself, it counts the entries between the two and names their kinds.
  ghost predicate ReachedExact(reached: seq<Reached>, entries: seq<Entry>, touched: set<string>) {
    && DistinctReached(reached)
    && (forall r | r in reached :: ReachExact(r, entries, touched))
    && (forall e | e in entries && Crosses(e.key, touched) :: IsReached(reached, e.key))
  }

  ghost predicate ReachExact(r: Reached, entries: seq<Entry>, touched: set<string>) {
    && OnBoundary(r, touched)
    && r.count == |Filter(entries, Between(r.key))|
    && Distinct(r.kinds)
    && forall kind :: kind in r.kinds <==> OfKind(entries, r.key, kind)
  }

  lemma RegistersIsKey(k: Key, touched: set<string>, r: ReachKey)
    requires r.componentId !in touched && r.viaComponentId in touched
    ensures Registers(k, touched) == Some(r) <==> k == KeyOf(r, k.kind)
  {
  }

  lemma KindsOfEntries(dependencies: seq<Dependency>, entries: seq<Entry>, touched: set<string>, key: ReachKey,
                       kind: DependencyKind)
    requires SummaryOf(dependencies, entries) && key.componentId !in touched && key.viaComponentId in touched
    ensures AnyReaches(dependencies, touched, key, kind) <==> OfKind(entries, key, kind)
  {
    if d :| d in dependencies && ReachedAs(d, touched, key, kind) {
      var same := Filter(entries, HasKey(d.key));
      FilterMember(entries, HasKey(d.key), same[0]);
      RegistersIsKey(d.key, touched, key);
    }
    if e :| e in entries && e.key == KeyOf(key, kind) {
      var d :| d in dependencies && d.key == e.key;
      RegistersIsKey(d.key, touched, key);
      assert ReachedAs(d, touched, key, kind);
    }
  }

  lemma RegisteredAreBetween(entries: seq<Entry>, touched: set<string>, r: ReachKey)
    requires r.componentId !in touched && r.viaComponentId in touched
    ensures Filter(entries, RegisteredAs(touched, r)) == Filter(entries, Between(r))
  {
    forall e | e in entries ensures RegisteredAs(touched, r)(e) == Between(r)(e) {
      RegistersIsKey(e.key, touched, r);
    }
    FilterSame(entries, RegisteredAs(touched, r), Between(r));
  }

  lemma OneReached(entries: seq<Entry>, dependencies: seq<Dependency>, touched: set<string>, r: Reached)
    requires dependencies == SortBy(Summary(entries), DependencyLe) && SummaryOf(dependencies, entries)
    requires r in ReachedBy(dependencies, touched)
    ensures ReachExact(r, entries, touched)
  {
    ReachedIsOutside(dependencies, touched);
    ReachedDistinct(dependencies, touched);
    ListedReach(ReachedBy(dependencies, touched), r);
    ReachedCountsEntries(entries, DependencyLe, touched, r.key);
    RegisteredAreBetween(entries, touched, r.key);
    forall kind ensures Distinct(r.kinds) && (kind in r.kinds <==> OfKind(entries, r.key, kind)) {
      ReachedKinds(dependencies, touched, r.key, kind);
      KindsOfEntries(dependencies, entries, touched, r.key, kind);
    }
    ReachedKinds(dependencies, touched, r.key, Http);
  }

  lemma EveryReached(entries: seq<Entry>, dependencies: seq<Dependency>, touched: set<string>, e: Entry)
    requires dependencies == SortBy(Summary(entries), DependencyLe)
    requires e in entries && Crosses(e.key, touched)
    ensures IsReached(ReachedBy(dependencies, touched), e.key)
  {
    var key := Registers(e.key, touched).value;
    ReachedCountsEntries(entries, DependencyLe, touched, key);
    FilterMember(entries, RegisteredAs(touched, key), e);
    CountedReach(ReachedBy(dependencies, touched), key);
    RegistersIsKey(e.key, touched, key);
  }

  lemma ReachedReordered(reached: seq<Reached>, sorted: seq<Reached>, entries: seq<Entry>, touched: set<string>)
    requires ReachedExact(reached, entries, touched) && multiset(sorted) == multiset(reached)
    ensures ReachedExact(sorted, entries, touched)
  {
    SameBagSameLength(sorted, reached);
    DistinctSameBag(reached, sorted);
    forall i, j | 0 <= i < j < |sorted| ensures sorted[i].key != sorted[j].key {
      ReachedApart(reached, sorted[i], sorted[j]);
    }
    forall e | e in entries && Crosses(e.key, touched)
      ensures IsReached(sorted, e.key)
    {
      var r :| r in reached && e.key == KeyOf(r.key, e.key.kind);
      assert r in sorted;
    }
  }

  lemma ReachedApart(reached: seq<Reached>, a: Reached, b: Reached)
    requires DistinctReached(reached) && a in reached && b in reached && a != b
    ensures a.key != b.key
  {
    var i :| 0 <= i < |reached| && reached[i] == a;
    var j :| 0 <= j < |reached| && reached[j] == b;
  }

  // Of any entries: exactly the components next to the touched ones.
  lemma ReachedOfEntries(entries: seq<Entry>, touched: set<string>)
    ensures ReachedExact(SortBy(ReachedBy(SortBy(Summary(entries), DependencyLe), touched), ReachedLe), entries,
        touched)
  {
    var dependencies := SortBy(Summary(entries), DependencyLe);
    var reached := ReachedBy(dependencies, touched);
    SummaryExact(entries);
    SortBag(Summary(entries), DependencyLe);
    SummaryReordered(Summary(entries), dependencies, entries);
    ReachedDistinct(dependencies, touched);
    forall r | r in reached ensures ReachExact(r, entries, touched) {
      OneReached(entries, dependencies, touched, r);
    }
    forall e | e in entries && Crosses(e.key, touched)
      ensures IsReached(reached, e.key)
    {
      EveryReached(entries, dependencies, touched, e);
    }
    SortBag(reached, ReachedLe);
    ReachedReordered(reached, SortBy(reached, ReachedLe), entries, touched);
  }

  // ---- Said of the edges and endpoints ---------------------------------------------------

  const REFERENCES := EdgeDependency(References)
  const IMPORTS := EdgeDependency(Imports)
  const TESTS := EdgeDependency(Tests)

  // Each reached component counts the edges and calls by which the two depend on each
  // other in its direction, and names their kinds; and wherever there is an edge or a call
  // with exactly one touched end, the other end is listed.
  ghost predicate ReachedLinks(reached: seq<Reached>, components: seq<ComponentRef>, repositories: seq<Repository>,
                               graphs: seq<Indexed>, touched: set<string>)
  {
    && DistinctReached(reached)
    && (forall r | r in reached :: ReachLinks(r, components, repositories, graphs, touched))
    && (forall k | Crosses(k, touched) && Links(components, repositories, graphs, k) != [] :: IsReached(reached, k))
  }

  ghost predicate ReachLinks(r: Reached, components: seq<ComponentRef>, repositories: seq<Repository>,
                             graphs: seq<Indexed>, touched: set<string>)
  {
    && OnBoundary(r, touched)
    && r.count == |Links(components, repositories, graphs, KeyOf(r.key, REFERENCES))|
                  + |Links(components, repositories, graphs, KeyOf(r.key, IMPORTS))|
                  + |Links(components, repositories, graphs, KeyOf(r.key, TESTS))|
                  + |Links(components, repositories, graphs, KeyOf(r.key, Http))|
    && Distinct(r.kinds)
    && forall kind :: kind in r.kinds <==> Links(components, repositories, graphs, KeyOf(r.key, kind)) != []
  }

  function CountWith(entries: seq<Entry>, k: Key): nat {
    |Filter(entries, HasKey(k))|
  }

  lemma OneByKind(e: Entry, r: ReachKey)
    ensures (if Between(r)(e) then 1 else 0)
         == HasOne(e, KeyOf(r, EdgeDependency(Defines))) + HasOne(e, KeyOf(r, REFERENCES))
            + HasOne(e, KeyOf(r, IMPORTS)) + HasOne(e, KeyOf(r, TESTS)) + HasOne(e, KeyOf(r, Http))
  {
    match e.key.kind
    case Http =>
    case EdgeDependency(kind) =>
      match kind
      case Defines =>
      case References =>
      case Imports =>
      case Tests =>
  }

  function HasOne(e: Entry, k: Key): nat {
    if e.key == k then 1 else 0
  }

  lemma CountSnoc(entries: seq<Entry>, k: Key)
    requires entries != []
    ensures CountWith(entries, k) == CountWith(entries[..|entries| - 1], k) + HasOne(entries[|entries| - 1], k)
  {
  }

  lemma {:induction false} BetweenByKind(entries: seq<Entry>, r: ReachKey)
    ensures |Filter(entries, Between(r))|
         == CountWith(entries, KeyOf(r, EdgeDependency(Defines))) + CountWith(entries, KeyOf(r, REFERENCES))
            + CountWith(entries, KeyOf(r, IMPORTS)) + CountWith(entries, KeyOf(r, TESTS))
            + CountWith(entries, KeyOf(r, Http))
  {
    if entries != [] {
      BetweenByKind(entries[..|entries| - 1], r);
      OneByKind(entries[|entries| - 1], r);
      CountSnoc(entries, KeyOf(r, EdgeDependency(Defines)));
      CountSnoc(entries, KeyOf(r, REFERENCES));
      CountSnoc(entries, KeyOf(r, IMPORTS));
      CountSnoc(entries, KeyOf(r, TESTS));
      CountSnoc(entries, KeyOf(r, Http));
    }
  }

  lemma LinkCount(components: seq<ComponentRef>, repositories: seq<Repository>, graphs: seq<Indexed>, k: Key)
    ensures CountWith(DependencyEntries(components, repositories, graphs), k)
         == |Links(components, repositories, graphs, k)|
  {
    EntriesAreLinks(components, repositories, graphs, k);
    EvidenceCount(DependencyEntries(components, repositories, graphs), k);
  }

  lemma NoDefinesLinks(components: seq<ComponentRef>, repositories: seq<Repository>, graphs: seq<Indexed>, k: Key)
    requires k.kind == EdgeDependency(Defines)
    ensures Links(components, repositories, graphs, k) == []
  {
    forall repo | repo in repositories ensures EdgeLinks(components, graphs, k)(repo) == [] {
      if GraphFor(graphs, repo.repoId).Some? {
        var g := GraphFor(graphs, repo.repoId).value;
        FlatMapNone(g.edges, EdgeLink(components, repo, g.nodes, k));
      }
    }
    FlatMapNone(repositories, EdgeLinks(components, graphs, k));
    forall c ensures CallLinks(components, repositories, graphs, k)(c) == [] {
      NothingEach(graphs, Provider, CallLink(components, repositories, k, c));
    }
    NothingEach(graphs, Consumer, CallLinks(components, repositories, graphs, k));
  }

  lemma NothingEach<T>(graphs: seq<Indexed>, role: Role, h: Located -> seq<T>)
    requires forall c: Located :: h(c) == []
    ensures EachEndpoint(graphs, role, h) == []
  {
    forall g | g in graphs ensures EndpointsIn(role, h)(g) == [] {
      if g.graph.Some? {
        FlatMapNone(g.graph.value.endpoints, IfInRole(g.repoId, role, h));
      }
    }
    FlatMapNone(graphs, EndpointsIn(role, h));
  }

  lemma KindLinked(components: seq<ComponentRef>, repositories: seq<Repository>, graphs: seq<Indexed>, k: Key)
    ensures (exists e :: e in DependencyEntries(components, repositories, graphs) && e.key == k)
       <==> Links(components, repositories, graphs, k) != []
  {
    var entries := DependencyEntries(components, repositories, graphs);
    LinkCount(components, repositories, graphs, k);
    if e :| e in entries && e.key == k {
      FilterMember(entries, HasKey(k), e);
    }
    if Filter(entries, HasKey(k)) != [] {
      FilterMember(entries, HasKey(k), Filter(entries, HasKey(k))[0]);
    }
  }

  lemma ReachIsLinks(r: Reached, components: seq<ComponentRef>, repositories: seq<Repository>, graphs: seq<Indexed>,
                     touched: set<string>)
    requires ReachExact(r, DependencyEntries(components, repositories, graphs), touched)
    ensures ReachLinks(r, components, repositories, graphs, touched)
  {
    var entries := DependencyEntries(components, repositories, graphs);
    BetweenByKind(entries, r.key);
    forall kind ensures CountWith(entries, KeyOf(r.key, kind))
                     == |Links(components, repositories, graphs, KeyOf(r.key, kind))|
    {
      LinkCount(components, repositories, graphs, KeyOf(r.key, kind));
    }
    NoDefinesLinks(components, repositories, graphs, KeyOf(r.key, EdgeDependency(Defines)));
    forall kind ensures kind in r.kinds <==> Links(components, repositories, graphs, KeyOf(r.key, kind)) != [] {
      KindLinked(components, repositories, graphs, KeyOf(r.key, kind));
    }
  }

  lemma LinkIsListed(components: seq<ComponentRef>, repositories: seq<Repository>, graphs: seq<Indexed>,
                     touched: set<string>, reached: seq<Reached>, k: Key)
    requires ReachedExact(reached, DependencyEntries(components, repositories, graphs), touched)
    requires Crosses(k, touched) && Links(components, repositories, graphs, k) != []
    ensures IsReached(reached, k)
  {
    KindLinked(components, repositories, graphs, k);
    var e :| e in DependencyEntries(components, repositories, graphs) && e.key == k;
  }

  lemma ExactIsLinks(components: seq<ComponentRef>, repositories: seq<Repository>, graphs: seq<Indexed>,
                     touched: set<string>, reached: seq<Reached>)
    requires ReachedExact(reached, DependencyEntries(components, repositories, graphs), touched)
    ensures ReachedLinks(reached, components, repositories, graphs, touched)
  {
    forall r | r in reached ensures ReachLinks(r, components, repositories, graphs, touched) {
      ReachIsLinks(r, components, repositories, graphs, touched);
    }
    forall k | Crosses(k, touched) && Links(components, repositories, graphs, k) != [] ensures IsReached(reached, k) {
      LinkIsListed(components, repositories, graphs, touched, reached, k);
    }
  }

  // What build_impact returns as reached: exactly the components next to the touched ones,
  // each in the direction of the edges and calls between the two.
  lemma ReachedIsExact(components: seq<ComponentRef>, repositories: seq<Repository>, graphs: seq<Indexed>,
                       touched: set<string>, reached: seq<Reached>)
    requires (var dependencies := SortBy(Summary(DependencyEntries(components, repositories, graphs)), DependencyLe);
              reached == SortBy(ReachedBy(dependencies, touched), ReachedLe))
    ensures ReachedLinks(reached, components, repositories, graphs, touched)
  {
    ReachedOfEntries(DependencyEntries(components, repositories, graphs), touched);
    ExactIsLinks(components, repositories, graphs, touched, reached);
  }
}
