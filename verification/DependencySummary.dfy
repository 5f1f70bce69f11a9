// Counting dependencies between components (architecture/dependencies.py).
module DependencySummary {
  import opened Lists
  import opened Strings
  import opened Sorting
  import opened CodeGraph

  const MAX_EVIDENCE := 8

  datatype DependencyKind = EdgeDependency(edgeKind: EdgeKind) | Http

  // One end of a dependency: where it is in which repository.
  datatype End = End(repoId: string, path: string, line: nat, symbolId: Option<string>, symbolName: Option<string>,
      sha: Option<string>)

  datatype Evidence = Evidence(kind: DependencyKind, source: End, target: End, httpMethod: Option<string>,
      route: Option<string>)

  datatype Key = Key(source: string, target: string, kind: DependencyKind)

  datatype Entry = Entry(key: Key, evidence: Evidence)

  datatype Dependency = Dependency(key: Key, count: nat, evidence: seq<Evidence>)

  // ---- _DependencyAccumulator ------------------------------------------------------

  function Bump(d: Dependency, evidence: Evidence): Dependency {
    Dependency(d.key, d.count + 1, if |d.evidence| < MAX_EVIDENCE then d.evidence + [evidence] else d.evidence)
  }

  // add, on the dictionary of dependencies in insertion order
  function AddTo(items: seq<Dependency>, entry: Entry): seq<Dependency> {
    if items == [] then [Bump(Dependency(entry.key, 0, []), entry.evidence)]
    else if items[0].key == entry.key then [Bump(items[0], entry.evidence)] + items[1..]
    else [items[0]] + AddTo(items[1..], entry)
  }

  function SummaryFrom(items: seq<Dependency>, entries: seq<Entry>): seq<Dependency> {
    if entries == [] then items else AddTo(SummaryFrom(items, entries[..|entries| - 1]), entries[|entries| - 1])
  }

  function Summary(entries: seq<Entry>): seq<Dependency> {
    SummaryFrom([], entries)
  }

  function KindName(kind: DependencyKind): string {
    match kind
    case EdgeDependency(Defines) => "defines"
    case EdgeDependency(References) => "references"
    case EdgeDependency(Imports) => "imports"
    case EdgeDependency(Tests) => "tests"
    case Http => "http"
  }

  // Most frequent first, then by source, target and kind.
  predicate DependencyLe(a: Dependency, b: Dependency) {
    a.count > b.count
    || (a.count == b.count
        && ThenBy(a.key.source, b.key.source,
                  ThenBy(a.key.target, b.key.target, LexLe(KindName(a.key.kind), KindName(b.key.kind)))))
  }

  lemma DependencyOrder()
    ensures TotalOrder(DependencyLe)
  {
    forall a: Dependency, b: Dependency ensures Comparable(DependencyLe, a, b) {
      DependenciesCompare(a, b);
    }
    forall a: Dependency, b: Dependency, c: Dependency ensures Passes(DependencyLe, a, b, c) {
      if DependencyLe(a, b) && DependencyLe(b, c) { DependenciesPass(a, b, c); }
    }
  }

  lemma DependenciesCompare(a: Dependency, b: Dependency)
    ensures DependencyLe(a, b) || DependencyLe(b, a)
  {
    var x, y := KindName(a.key.kind), KindName(b.key.kind);
    LexTotal(x, y);
    ThenByTotal(a.key.target, b.key.target, LexLe(x, y), LexLe(y, x));
    ThenByTotal(a.key.source, b.key.source, ThenBy(a.key.target, b.key.target, LexLe(x, y)),
                ThenBy(b.key.target, a.key.target, LexLe(y, x)));
  }

  lemma DependenciesPass(a: Dependency, b: Dependency, c: Dependency)
    requires DependencyLe(a, b) && DependencyLe(b, c)
    ensures DependencyLe(a, c)
  {
    if a.count == b.count == c.count {
      var x, y, z := KindName(a.key.kind), KindName(b.key.kind), KindName(c.key.kind);
      if LexLe(x, y) && LexLe(y, z) { LexTransitive(x, y, z); }
      TargetsPass(a.key, b.key, c.key);
      ThenByPasses(a.key.source, b.key.source, c.key.source, ThenBy(a.key.target, b.key.target, LexLe(x, y)),
                   ThenBy(b.key.target, c.key.target, LexLe(y, z)), ThenBy(a.key.target, c.key.target, LexLe(x, z)));
    }
  }

  lemma TargetsPass(a: Key, b: Key, c: Key)
    ensures (var x, y, z := KindName(a.kind), KindName(b.kind), KindName(c.kind);
             ThenBy(a.target, b.target, LexLe(x, y)) && ThenBy(b.target, c.target, LexLe(y, z))
             ==> ThenBy(a.target, c.target, LexLe(x, z)))
  {
    var x, y, z := KindName(a.kind), KindName(b.kind), KindName(c.kind);
    if ThenBy(a.target, b.target, LexLe(x, y)) && ThenBy(b.target, c.target, LexLe(y, z)) {
      if LexLe(x, y) && LexLe(y, z) { LexTransitive(x, y, z); }
      ThenByPasses(a.target, b.target, c.target, LexLe(x, y), LexLe(y, z), LexLe(x, z));
    }
  }

  class DependencyAccumulator {
    var items: seq<Dependency>

    constructor ()
      ensures items == []
    {
      items := [];
    }

    method Add(source: string, target: string, kind: DependencyKind, evidence: Evidence)
      modifies this
      ensures items == AddTo(old(items), Entry(Key(source, target, kind), evidence))
    {
      items := AddTo(items, Entry(Key(source, target, kind), evidence));
    }

    // result
    method Result() returns (sorted: seq<Dependency>)
      ensures sorted == SortBy(items, DependencyLe)
      ensures SortedBy(sorted, DependencyLe) && multiset(sorted) == multiset(items)
    {
      DependencyOrder();
      SortSorts(items, DependencyLe);
      SortBag(items, DependencyLe);
      sorted := SortBy(items, DependencyLe);
    }
  }

  lemma {:induction false} SummaryAppend(items: seq<Dependency>, xs: seq<Entry>, ys: seq<Entry>)
    ensures SummaryFrom(items, xs + ys) == SummaryFrom(SummaryFrom(items, xs), ys)
    decreases |ys|
  {
    if ys == [] {
      assert xs + ys == xs;
    } else {
      assert (xs + ys)[..|xs + ys| - 1] == xs + ys[..|ys| - 1];
      SummaryAppend(items, xs, ys[..|ys| - 1]);
    }
  }

  // ---- The law of the accumulator ---------------------------------------------------

  function HasKey(k: Key): Entry -> bool {
    (e: Entry) => e.key == k
  }

  function CountOf(items: seq<Dependency>, k: Key): nat {
    if items == [] then 0 else if items[0].key == k then items[0].count else CountOf(items[1..], k)
  }

  function EvidenceOf(items: seq<Dependency>, k: Key): seq<Evidence> {
    if items == [] then [] else if items[0].key == k then items[0].evidence else EvidenceOf(items[1..], k)
  }

  ghost predicate DistinctKeys(items: seq<Dependency>) {
    forall i, j | 0 <= i < j < |items| :: items[i].key != items[j].key
  }

  // The evidence of the entries, in order.
  function Evidences(entries: seq<Entry>): seq<Evidence> {
    seq(|entries|, i requires 0 <= i < |entries| => entries[i].evidence)
  }

  function FirstFew(evidence: seq<Evidence>): seq<Evidence> {
    if |evidence| <= MAX_EVIDENCE then evidence else evidence[..MAX_EVIDENCE]
  }

  lemma {:induction false} AddToCounts(items: seq<Dependency>, entry: Entry, k: Key)
    ensures CountOf(AddTo(items, entry), k) == CountOf(items, k) + if entry.key == k then 1 else 0
    ensures EvidenceOf(AddTo(items, entry), k)
         == EvidenceOf(items, k)
            + if entry.key == k && |EvidenceOf(items, k)| < MAX_EVIDENCE then [entry.evidence] else []
  {
    if items != [] && items[0].key != entry.key {
      AddToCounts(items[1..], entry, k);
    }
  }

  lemma {:induction false} AddToKeys(items: seq<Dependency>, entry: Entry)
    requires DistinctKeys(items) && forall d | d in items :: d.count >= 1
    ensures DistinctKeys(AddTo(items, entry)) && forall d | d in AddTo(items, entry) :: d.count >= 1
    ensures forall d | d in AddTo(items, entry) :: d.key == entry.key || exists e :: e in items && e.key == d.key
  {
    if items != [] {
      if items[0].key == entry.key {
        assert forall d | d in items[1..] :: d in items;
      } else {
        AddToKeys(items[1..], entry);
        assert forall d | d in items[1..] :: d in items;
      }
    }
  }

  // Every key with an entry has one dependency: it counts the entries of the key
  // and keeps the evidence of the first eight.
  lemma {:induction false} SummaryCounts(entries: seq<Entry>, k: Key)
    ensures CountOf(Summary(entries), k) == |Filter(entries, HasKey(k))|
    ensures EvidenceOf(Summary(entries), k) == FirstFew(Evidences(Filter(entries, HasKey(k))))
  {
    if entries != [] {
      var init, last := entries[..|entries| - 1], entries[|entries| - 1];
      SummaryCounts(init, k);
      AddToCounts(Summary(init), last, k);
      if last.key == k {
        var before := Filter(init, HasKey(k));
        assert Evidences(before + [last]) == Evidences(before) + [last.evidence];
      }
    }
  }

  lemma {:induction false} SummaryKeys(entries: seq<Entry>)
    ensures DistinctKeys(Summary(entries)) && forall d | d in Summary(entries) :: d.count >= 1
  {
    if entries != [] {
      SummaryKeys(entries[..|entries| - 1]);
      AddToKeys(Summary(entries[..|entries| - 1]), entries[|entries| - 1]);
    }
  }

  lemma {:induction false} ListedCount(items: seq<Dependency>, d: Dependency)
    requires DistinctKeys(items) && d in items
    ensures CountOf(items, d.key) == d.count && EvidenceOf(items, d.key) == d.evidence
  {
    if items[0] != d {
      var j :| 0 < j < |items| && items[j] == d;
      assert items[1..][j - 1] == d;
      ListedCount(items[1..], d);
    }
  }

  lemma {:induction false} CountedIsListed(items: seq<Dependency>, k: Key)
    requires CountOf(items, k) > 0
    ensures exists d :: d in items && d.key == k
  {
    if items[0].key == k {
      assert items[0] in items;
    } else {
      CountedIsListed(items[1..], k);
      var d :| d in items[1..] && d.key == k;
      assert d in items;
    }
  }

  // The dependencies of a list of entries, said without the accumulator.
  ghost predicate SummaryOf(items: seq<Dependency>, entries: seq<Entry>) {
    && DistinctKeys(items)
    && (forall d | d in items ::
          var same := Filter(entries, HasKey(d.key));
          d.count == |same| >= 1 && d.evidence == FirstFew(Evidences(same)))
    && (forall e | e in entries :: exists d :: d in items && d.key == e.key)
  }

  lemma SummaryExact(entries: seq<Entry>)
    ensures SummaryOf(Summary(entries), entries)
    ensures forall d | d in Summary(entries) ::
        |d.evidence| == if d.count <= MAX_EVIDENCE then d.count else MAX_EVIDENCE
  {
    var items := Summary(entries);
    SummaryKeys(entries);
    forall d | d in items ensures CountOf(items, d.key) == d.count && EvidenceOf(items, d.key) == d.evidence {
      ListedCount(items, d);
    }
    forall d | d in items
      ensures d.count == |Filter(entries, HasKey(d.key))|
          && d.evidence == FirstFew(Evidences(Filter(entries, HasKey(d.key))))
    {
      SummaryCounts(entries, d.key);
    }
    forall e | e in entries ensures exists d :: d in items && d.key == e.key {
      SummaryCounts(entries, e.key);
      FilterMember(entries, HasKey(e.key), e);
      CountedIsListed(items, e.key);
    }
  }

  // The order of the dependencies does not matter for that.
  lemma SummaryReordered(items: seq<Dependency>, sorted: seq<Dependency>, entries: seq<Entry>)
    requires SummaryOf(items, entries) && multiset(items) == multiset(sorted)
    ensures SummaryOf(sorted, entries)
  {
    SameBagSameLength(items, sorted);
    DistinctSameBag(items, sorted);
    forall i, j | 0 <= i < j < |sorted| ensures sorted[i].key != sorted[j].key {
      KeysApart(items, sorted[i], sorted[j]);
    }
    forall e | e in entries ensures exists d :: d in sorted && d.key == e.key {
      var d :| d in items && d.key == e.key;
      assert d in sorted;
    }
  }

  lemma KeysApart(items: seq<Dependency>, a: Dependency, b: Dependency)
    requires DistinctKeys(items) && a in items && b in items && a != b
    ensures a.key != b.key
  {
    var i :| 0 <= i < |items| && items[i] == a;
    var j :| 0 <= j < |items| && items[j] == b;
  }
}
