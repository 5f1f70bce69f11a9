// What a count of HTTP dependencies counts (architecture/dependencies.py).
module JoinCounts {
  import opened Lists
  import opened CodeGraph
  import opened Matching
  import opened DependencySummary
  import opened Dependencies

  // A consumer owned by one component calls a provider owned by the other.
  predicate Calls(components: seq<ComponentRef>, consumer: Located, provider: Located, source: string, target: string) {
    && RouteOf(consumer.endpoint) == RouteOf(provider.endpoint)
    && ResolvedOwner(components, consumer.repoId, consumer.endpoint.path) == Some(source)
    && ResolvedOwner(components, provider.repoId, provider.endpoint.path) == Some(target)
  }

  ghost function PairSet(components: seq<ComponentRef>, consumers: seq<Located>, providers: seq<Located>,
                         source: string, target: string): set<(nat, nat)>
  {
    set i: nat, j: nat | i < |consumers| && j < |providers|
        && Calls(components, consumers[i], providers[j], source, target) :: (i, j)
  }

  // The pairs of one consumer, which has number n.
  ghost function Row(components: seq<ComponentRef>, consumer: Located, n: nat, providers: seq<Located>,
                     source: string, target: string): set<(nat, nat)>
  {
    set j: nat | j < |providers| && Calls(components, consumer, providers[j], source, target) :: (n, j)
  }

  lemma RowSnoc(components: seq<ComponentRef>, consumer: Located, n: nat, providers: seq<Located>, source: string,
                target: string)
    requires providers != []
    ensures (var m := |providers| - 1;
             var rest := Row(components, consumer, n, providers[..m], source, target);
             && Row(components, consumer, n, providers, source, target)
                == rest + (if Calls(components, consumer, providers[m], source, target) then {(n, m)} else {})
             && (n, m) !in rest)
  {
  }

  lemma {:induction false} RowCount(components: seq<ComponentRef>, repositories: seq<Repository>, consumer: Located,
                                    n: nat,
                                    providers: seq<Located>, source: string, target: string)
    requires source != target
    ensures |Row(components, consumer, n, providers, source, target)|
         == |Filter(NestedCalls(components, repositories, providers)(consumer), HasKey(Key(source, target, Http)))|
    decreases |providers|
  {
    var k := Key(source, target, Http);
    if providers != [] {
      var init, last := providers[..|providers| - 1], providers[|providers| - 1];
      RowCount(components, repositories, consumer, n, init, source, target);
      RowSnoc(components, consumer, n, providers, source, target);
      FilterAppend(NestedCalls(components, repositories, init)(consumer),
          CallIfOnRoute(components, repositories, consumer)(last), HasKey(k));
      OneCall(components, repositories, consumer, last, source, target);
    }
  }

  lemma OneCall(components: seq<ComponentRef>, repositories: seq<Repository>, consumer: Located, provider: Located,
                source: string, target: string)
    requires source != target
    ensures |Filter(CallIfOnRoute(components, repositories, consumer)(provider), HasKey(Key(source, target, Http)))|
         == if Calls(components, consumer, provider, source, target) then 1 else 0
  {
    var made := CallEntry(components, repositories, consumer)(provider);
    var entries := CallIfOnRoute(components, repositories, consumer)(provider);
    assert |made| <= 1;
    assert entries == if RouteOf(provider.endpoint) == RouteOf(consumer.endpoint) then made else [];
    if entries != [] {
      FilterOne(made[0], HasKey(Key(source, target, Http)));
      assert entries == [made[0]];
    }
  }

  lemma PairsSnoc(components: seq<ComponentRef>, consumers: seq<Located>, providers: seq<Located>, source: string,
                  target: string)
    requires consumers != []
    ensures (var n := |consumers| - 1;
             var rest, row := PairSet(components, consumers[..n], providers, source, target),
                              Row(components, consumers[n], n, providers, source, target);
             PairSet(components, consumers, providers, source, target) == rest + row && rest !! row)
  {
  }

  lemma {:induction false} PairCount(components: seq<ComponentRef>, repositories: seq<Repository>,
                                     consumers: seq<Located>,
                                     providers: seq<Located>, source: string, target: string)
    requires source != target
    ensures |PairSet(components, consumers, providers, source, target)|
         == |Filter(FlatMap(consumers, NestedCalls(components, repositories, providers)),
             HasKey(Key(source, target, Http)))|
    decreases |consumers|
  {
    if consumers != [] {
      var n := |consumers| - 1;
      var f := NestedCalls(components, repositories, providers);
      PairCount(components, repositories, consumers[..n], providers, source, target);
      PairsSnoc(components, consumers, providers, source, target);
      RowCount(components, repositories, consumers[n], n, providers, source, target);
      FilterAppend(FlatMap(consumers[..n], f), f(consumers[n]), HasKey(Key(source, target, Http)));
    }
  }

  lemma EdgesAreNotCalls(components: seq<ComponentRef>, repositories: seq<Repository>, graphs: seq<Indexed>,
                         source: string, target: string)
    ensures Filter(FlatMap(repositories, RepositoryEntries(components, graphs)), HasKey(Key(source, target, Http)))
         == []
  {
    var entries := FlatMap(repositories, RepositoryEntries(components, graphs));
    forall e | e in entries ensures !HasKey(Key(source, target, Http))(e) {
      EdgeIsNotCall(components, repositories, graphs, e);
    }
    FilterNone(entries, HasKey(Key(source, target, Http)));
  }

  lemma EdgeIsNotCall(components: seq<ComponentRef>, repositories: seq<Repository>, graphs: seq<Indexed>, e: Entry)
    requires e in FlatMap(repositories, RepositoryEntries(components, graphs))
    ensures e.key.kind != Http
  {
    FlatMapMember(repositories, RepositoryEntries(components, graphs), e);
    var repo :| repo in repositories && e in RepositoryEntries(components, graphs)(repo);
    NoCallInGraph(components, repo, GraphFor(graphs, repo.repoId).value, e);
  }

  lemma NoCallInGraph(components: seq<ComponentRef>, repo: Repository, g: Graph, e: Entry)
    requires e in FlatMap(g.edges, EdgeEntry(components, repo, g.nodes))
    ensures e.key.kind != Http
  {
    FlatMapMember(g.edges, EdgeEntry(components, repo, g.nodes), e);
  }

  // Between two different components the http dependency counts the pairs of a
  // consumer in one and a provider in the other with equal method and route.
  lemma HttpCountIsPairs(components: seq<ComponentRef>, repositories: seq<Repository>, graphs: seq<Indexed>,
                         dependencies: seq<Dependency>, source: string, target: string)
    requires SummaryOf(dependencies, DependencyEntries(components, repositories, graphs)) && source != target
    ensures (var pairs := PairSet(components, AllIn(graphs, Consumer), AllIn(graphs, Provider), source, target);
             && (forall d | d in dependencies && d.key == Key(source, target, Http) :: d.count == |pairs|)
             && (pairs != {} ==> exists d :: d in dependencies && d.key == Key(source, target, Http)))
  {
    var k := Key(source, target, Http);
    var same := Filter(DependencyEntries(components, repositories, graphs), HasKey(k));
    CallsArePairs(components, repositories, graphs, source, target);
    if same != [] {
      FilterMember(DependencyEntries(components, repositories, graphs), HasKey(k), same[0]);
    }
  }

  lemma CallsArePairs(components: seq<ComponentRef>, repositories: seq<Repository>, graphs: seq<Indexed>,
                      source: string,
                      target: string)
    requires source != target
    ensures |Filter(DependencyEntries(components, repositories, graphs), HasKey(Key(source, target, Http)))|
         == |PairSet(components, AllIn(graphs, Consumer), AllIn(graphs, Provider), source, target)|
  {
    var edges := FlatMap(repositories, RepositoryEntries(components, graphs));
    var calls := FlatMap(AllIn(graphs, Consumer), NestedCalls(components, repositories, AllIn(graphs, Provider)));
    FilterAppend(edges, calls, HasKey(Key(source, target, Http)));
    EdgesAreNotCalls(components, repositories, graphs, source, target);
    PairCount(components, repositories, AllIn(graphs, Consumer), AllIn(graphs, Provider), source, target);
  }

  // No component depends on itself.
  lemma NoSelfDependency(components: seq<ComponentRef>, repositories: seq<Repository>, graphs: seq<Indexed>,
                         dependencies: seq<Dependency>, d: Dependency)
    requires SummaryOf(dependencies, DependencyEntries(components, repositories, graphs)) && d in dependencies
    ensures d.key.source != d.key.target
  {
    var entries := DependencyEntries(components, repositories, graphs);
    var same := Filter(entries, HasKey(d.key));
    FilterMember(entries, HasKey(d.key), same[0]);
    EntriesCross(components, repositories, graphs, same[0]);
  }

  lemma EntriesCross(components: seq<ComponentRef>, repositories: seq<Repository>, graphs: seq<Indexed>, e: Entry)
    requires e in DependencyEntries(components, repositories, graphs)
    ensures e.key.source != e.key.target
  {
    if e in FlatMap(repositories, RepositoryEntries(components, graphs)) {
      FlatMapMember(repositories, RepositoryEntries(components, graphs), e);
      var repo :| repo in repositories && e in RepositoryEntries(components, graphs)(repo);
      var g := GraphFor(graphs, repo.repoId).value;
      FlatMapMember(g.edges, EdgeEntry(components, repo, g.nodes), e);
    } else {
      var providers := AllIn(graphs, Provider);
      FlatMapMember(AllIn(graphs, Consumer), NestedCalls(components, repositories, providers), e);
      var consumer :| consumer in AllIn(graphs, Consumer)
          && e in NestedCalls(components, repositories, providers)(consumer);
      FlatMapMember(providers, CallIfOnRoute(components, repositories, consumer), e);
      var provider :| provider in providers && e in CallIfOnRoute(components, repositories, consumer)(provider);
      assert e in CallEntry(components, repositories, consumer)(provider);
    }
  }
}
