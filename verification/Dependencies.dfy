// Dependencies between components: symbol edges and the join of HTTP consumers
// with providers (architecture/dependencies.py).
module Dependencies {
  import opened Lists
  import opened Strings
  import opened Sorting
  import opened CodeGraph
  import opened Matching
  import opened DependencySummary

  datatype Repository = Repository(repoId: string, sha: Option<string>)

  // graphs: the indexed graph of each repository id, in dictionary order
  datatype Indexed = Indexed(repoId: string, graph: Option<Graph>)

  datatype Located = Located(repoId: string, endpoint: HttpEndpoint)

  datatype RouteKey = RouteKey(httpMethod: string, normalizedRoute: string)

  predicate FirstOf(graphs: seq<Indexed>, i: nat, repoId: string) {
    i < |graphs| && graphs[i].repoId == repoId && forall j | 0 <= j < i :: graphs[j].repoId != repoId
  }

  predicate LastOf(repositories: seq<Repository>, i: nat, repoId: string) {
    && i < |repositories| && repositories[i].repoId == repoId
    && forall j | i < j < |repositories| :: repositories[j].repoId != repoId
  }

  // graphs.get(repo_id), where a missing key and None are treated alike
  function GraphFor(graphs: seq<Indexed>, repoId: string): (graph: Option<Graph>)
    ensures forall i | 0 <= i < |graphs| && FirstOf(graphs, i, repoId) :: graph == graphs[i].graph
    ensures (forall g | g in graphs :: g.repoId != repoId) ==> graph.None?
  {
    assert forall i | 0 < i < |graphs| && FirstOf(graphs, i, repoId) :: FirstOf(graphs[1..], i - 1, repoId);
    if graphs == [] then None
    else if graphs[0].repoId == repoId then graphs[0].graph
    else GraphFor(graphs[1..], repoId)
  }

  // sha_by_repo.get(repo_id): the last repository of that id
  function ShaOf(repositories: seq<Repository>, repoId: string): (sha: Option<string>)
    ensures forall i | 0 <= i < |repositories| && LastOf(repositories, i, repoId) :: sha == repositories[i].sha
    ensures (forall r | r in repositories :: r.repoId != repoId) ==> sha.None?
  {
    assert forall i | 0 <= i < |repositories| - 1 && LastOf(repositories, i, repoId) ::
        LastOf(repositories[..|repositories| - 1], i, repoId);
    if repositories == [] then None
    else if repositories[|repositories| - 1].repoId == repoId then repositories[|repositories| - 1].sha
    else ShaOf(repositories[..|repositories| - 1], repoId)
  }

  // ---- Symbol edges ----------------------------------------------------------------------

  function SymbolEnd(repo: Repository, s: Symbol): End {
    End(repo.repoId, s.path, s.line, Some(s.id), Some(s.name), repo.sha)
  }

  function EdgeEntry(components: seq<ComponentRef>, repo: Repository, nodes: seq<Symbol>): Edge -> seq<Entry> {
    (e: Edge) =>
      if e.kind == Defines || !Closed(nodes, e) then []
      else
        var source, target := Find(nodes, e.fromId).value, Find(nodes, e.toId).value;
        var from_ := ResolvedOwner(components, repo.repoId, source.path);
        var to_ := ResolvedOwner(components, repo.repoId, target.path);
        if from_.None? || to_.None? || from_ == to_ then []
        else [Entry(Key(from_.value, to_.value, EdgeDependency(e.kind)),
                    Evidence(EdgeDependency(e.kind), SymbolEnd(repo, source), SymbolEnd(repo, target), None, None))]
  }

  function RepositoryEntries(components: seq<ComponentRef>, graphs: seq<Indexed>): Repository -> seq<Entry> {
    (repo: Repository) =>
      match GraphFor(graphs, repo.repoId)
      case Some(g) => FlatMap(g.edges, EdgeEntry(components, repo, g.nodes))
      case None => []
  }

  method AddEdges(accumulator: DependencyAccumulator, index: ComponentIndex, repo: Repository, g: Graph)
    requires index.Valid()
    modifies accumulator
    ensures accumulator.items
        == SummaryFrom(old(accumulator.items), FlatMap(g.edges, EdgeEntry(index.components, repo, g.nodes)))
  {
    ghost var f := EdgeEntry(index.components, repo, g.nodes);
    for i := 0 to |g.edges|
      invariant accumulator.items == SummaryFrom(old(accumulator.items), FlatMap(g.edges[..i], f))
    {
      AddStep(old(accumulator.items), g.edges, f, i);
      AddEdge(accumulator, index, repo, g.nodes, g.edges[i]);
    }
    assert g.edges[..|g.edges|] == g.edges;
  }

  // The body of the loop over edges.
  method AddEdge(accumulator: DependencyAccumulator, index: ComponentIndex, repo: Repository, nodes: seq<Symbol>,
                 e: Edge)
    requires index.Valid()
    modifies accumulator
    ensures accumulator.items == SummaryFrom(old(accumulator.items), EdgeEntry(index.components, repo, nodes)(e))
  {
    if e.kind == Defines {
      return;
    }
    var source, target := Find(nodes, e.fromId), Find(nodes, e.toId);
    if source.None? || target.None? {
      return;
    }
    var sourceOwner := index.Resolve(repo.repoId, source.value.path);
    var targetOwner := index.Resolve(repo.repoId, target.value.path);
    if sourceOwner.None? || targetOwner.None? || sourceOwner == targetOwner {
      return;
    }
    accumulator.Add(sourceOwner.value, targetOwner.value, EdgeDependency(e.kind),
                    Evidence(EdgeDependency(e.kind), SymbolEnd(repo, source.value), SymbolEnd(repo, target.value),
                             None, None));
    SummaryOne(old(accumulator.items), EdgeEntry(index.components, repo, nodes)(e)[0]);
  }

  lemma SummaryOne(items: seq<Dependency>, e: Entry)
    ensures SummaryFrom(items, [e]) == AddTo(items, e)
  {
    assert [e][..0] == [];
  }

  lemma AddStep<T>(items: seq<Dependency>, xs: seq<T>, f: T -> seq<Entry>, i: nat)
    requires i < |xs|
    ensures SummaryFrom(items, FlatMap(xs[..i + 1], f))
        == SummaryFrom(SummaryFrom(items, FlatMap(xs[..i], f)), f(xs[i]))
  {
    FlatMapTake(xs, f, i);
    SummaryAppend(items, FlatMap(xs[..i], f), f(xs[i]));
  }

  method AddRepositories(accumulator: DependencyAccumulator, index: ComponentIndex, repositories: seq<Repository>,
                         graphs: seq<Indexed>)
    requires index.Valid()
    modifies accumulator
    ensures accumulator.items
         == SummaryFrom(old(accumulator.items), FlatMap(repositories, RepositoryEntries(index.components, graphs)))
  {
    ghost var f := RepositoryEntries(index.components, graphs);
    for i := 0 to |repositories|
      invariant accumulator.items == SummaryFrom(old(accumulator.items), FlatMap(repositories[..i], f))
    {
      AddStep(old(accumulator.items), repositories, f, i);
      var g := GraphFor(graphs, repositories[i].repoId);
      if g.Some? {
        AddEdges(accumulator, index, repositories[i], g.value);
      }
    }
    assert repositories[..|repositories|] == repositories;
  }

  // ---- The provider index ------------------------------------------------------------------

  function RouteOf(e: HttpEndpoint): RouteKey {
    RouteKey(e.httpMethod, e.normalizedRoute)
  }

  function LocatedIn(role: Role): Indexed -> seq<Located> {
    (g: Indexed) => if g.graph.None? then [] else Locate(g.repoId, Filter(g.graph.value.endpoints, InRole(role)))
  }

  function InRole(role: Role): HttpEndpoint -> bool {
    (e: HttpEndpoint) => e.role == role
  }

  function Locate(repoId: string, endpoints: seq<HttpEndpoint>): seq<Located> {
    seq(|endpoints|, i requires 0 <= i < |endpoints| => Located(repoId, endpoints[i]))
  }

  // Every endpoint of a role, in the order the loops visit them.
  function AllIn(graphs: seq<Indexed>, role: Role): seq<Located> {
    FlatMap(graphs, LocatedIn(role))
  }

  function OnRoute(k: RouteKey): Located -> bool {
    (p: Located) => RouteOf(p.endpoint) == k
  }

  function GetProviders(providers: map<RouteKey, seq<Located>>, k: RouteKey): seq<Located> {
    if k in providers then providers[k] else []
  }

  ghost predicate IndexOf(providers: map<RouteKey, seq<Located>>, all: seq<Located>) {
    forall k: RouteKey :: GetProviders(providers, k) == Filter(all, OnRoute(k))
  }

  lemma IndexSnoc(providers: map<RouteKey, seq<Located>>, all: seq<Located>, p: Located)
    requires IndexOf(providers, all)
    ensures (var k := RouteOf(p.endpoint); IndexOf(providers[k := GetProviders(providers, k) + [p]], all + [p]))
  {
    forall k: RouteKey
      ensures Filter(all + [p], OnRoute(k)) == Filter(all, OnRoute(k)) + if RouteOf(p.endpoint) == k then [p] else []
    {
      assert (all + [p])[..|all|] == all;
    }
  }

  // The endpoints of one graph go into the index.
  method IndexEndpoints(initial: map<RouteKey, seq<Located>>, ghost all: seq<Located>, repoId: string,
                        endpoints: seq<HttpEndpoint>)
    returns (providers: map<RouteKey, seq<Located>>)
    requires IndexOf(initial, all)
    ensures IndexOf(providers, all + Locate(repoId, Filter(endpoints, InRole(Provider))))
  {
    providers := initial;
    assert all + Locate(repoId, []) == all;
    for i := 0 to |endpoints|
      invariant IndexOf(providers, all + Locate(repoId, Filter(endpoints[..i], InRole(Provider))))
    {
      ghost var seen := all + Locate(repoId, Filter(endpoints[..i], InRole(Provider)));
      LocateNext(all, repoId, endpoints, Provider, i);
      if endpoints[i].role != Provider {
        continue;
      }
      var k := RouteOf(endpoints[i]);
      IndexSnoc(providers, seen, Located(repoId, endpoints[i]));
      providers := providers[k := GetProviders(providers, k) + [Located(repoId, endpoints[i])]];
    }
    assert endpoints[..|endpoints|] == endpoints;
  }

  lemma LocateNext(all: seq<Located>, repoId: string, endpoints: seq<HttpEndpoint>, role: Role, i: nat)
    requires i < |endpoints|
    ensures (var seen := all + Locate(repoId, Filter(endpoints[..i], InRole(role)));
             all + Locate(repoId, Filter(endpoints[..i + 1], InRole(role)))
             == if endpoints[i].role == role then seen + [Located(repoId, endpoints[i])] else seen)
  {
    FilterTake(endpoints, InRole(role), i);
  }

  method IndexProviders(graphs: seq<Indexed>) returns (providers: map<RouteKey, seq<Located>>)
    ensures IndexOf(providers, AllIn(graphs, Provider))
  {
    providers := map[];
    for i := 0 to |graphs|
      invariant IndexOf(providers, AllIn(graphs[..i], Provider))
    {
      FlatMapTake(graphs, LocatedIn(Provider), i);
      if graphs[i].graph.Some? {
        providers := IndexEndpoints(providers, AllIn(graphs[..i], Provider), graphs[i].repoId,
            graphs[i].graph.value.endpoints);
      } else {
        assert AllIn(graphs[..i], Provider) + [] == AllIn(graphs[..i], Provider);
      }
    }
    assert graphs[..|graphs|] == graphs;
  }

  // ---- The join ---------------------------------------------------------------------------------

  function EndpointEnd(repositories: seq<Repository>, at: Located): End {
    End(at.repoId, at.endpoint.path, at.endpoint.line, at.endpoint.symbolId, at.endpoint.symbolName,
        ShaOf(repositories, at.repoId))
  }

  // The dependency of a consumer on a provider it calls, unless one component owns both.
  function CallEntry(components: seq<ComponentRef>, repositories: seq<Repository>,
                     consumer: Located): Located -> seq<Entry>
  {
    (provider: Located) =>
      var from_ := ResolvedOwner(components, consumer.repoId, consumer.endpoint.path);
      var to_ := ResolvedOwner(components, provider.repoId, provider.endpoint.path);
      if from_.None? || to_.None? || from_ == to_ then []
      else [Entry(Key(from_.value, to_.value, Http),
                  Evidence(Http, EndpointEnd(repositories, consumer), EndpointEnd(repositories, provider),
                           Some(consumer.endpoint.httpMethod), Some(consumer.endpoint.route)))]
  }

  // The inner loop: the providers the index holds for the consumer's route.
  function CallsOf(components: seq<ComponentRef>, repositories: seq<Repository>,
                   all: seq<Located>): Located -> seq<Entry>
  {
    (consumer: Located) =>
      FlatMap(Filter(all, OnRoute(RouteOf(consumer.endpoint))), CallEntry(components, repositories, consumer))
  }

  method AddCalls(accumulator: DependencyAccumulator, index: ComponentIndex, repositories: seq<Repository>,
                  providers: map<RouteKey, seq<Located>>, ghost all: seq<Located>, consumer: Located)
    requires index.Valid() && IndexOf(providers, all)
    modifies accumulator
    ensures accumulator.items
        == SummaryFrom(old(accumulator.items), CallsOf(index.components, repositories, all)(consumer))
  {
    ghost var f := CallEntry(index.components, repositories, consumer);
    var candidates := GetProviders(providers, RouteOf(consumer.endpoint));
    var consumerOwner := index.Resolve(consumer.repoId, consumer.endpoint.path);
    if consumerOwner.None? {
      FlatMapNone(candidates, f);
      return;
    }
    for i := 0 to |candidates|
      invariant accumulator.items == SummaryFrom(old(accumulator.items), FlatMap(candidates[..i], f))
    {
      AddStep(old(accumulator.items), candidates, f, i);
      var provider := candidates[i];
      var providerOwner := index.Resolve(provider.repoId, provider.endpoint.path);
      if providerOwner.None? || providerOwner == consumerOwner {
        continue;
      }
      SummaryOne(accumulator.items, f(provider)[0]);
      accumulator.Add(consumerOwner.value, providerOwner.value, Http,
                      Evidence(Http, EndpointEnd(repositories, consumer), EndpointEnd(repositories, provider),
                               Some(consumer.endpoint.httpMethod), Some(consumer.endpoint.route)));
    }
    assert candidates[..|candidates|] == candidates;
  }

  // The consumers of one graph.
  method AddConsumers(accumulator: DependencyAccumulator, index: ComponentIndex, repositories: seq<Repository>,
                      providers: map<RouteKey, seq<Located>>, ghost all: seq<Located>, repoId: string,
                      endpoints: seq<HttpEndpoint>)
    requires index.Valid() && IndexOf(providers, all)
    modifies accumulator
    ensures accumulator.items == SummaryFrom(old(accumulator.items),
                                             FlatMap(Locate(repoId, Filter(endpoints, InRole(Consumer))),
                                                     CallsOf(index.components, repositories, all)))
  {
    ghost var f := CallsOf(index.components, repositories, all);
    ghost var done: seq<Located> := [];
    for i := 0 to |endpoints|
      invariant done == [] + Locate(repoId, Filter(endpoints[..i], InRole(Consumer)))
      invariant accumulator.items == SummaryFrom(old(accumulator.items), FlatMap(done, f))
    {
      LocateNext([], repoId, endpoints, Consumer, i);
      if endpoints[i].role != Consumer {
        continue;
      }
      var consumer := Located(repoId, endpoints[i]);
      FlatMapSnoc(done, f, consumer);
      SummaryAppend(old(accumulator.items), FlatMap(done, f), f(consumer));
      AddCalls(accumulator, index, repositories, providers, all, consumer);
      done := done + [consumer];
    }
    assert endpoints[..|endpoints|] == endpoints;
    assert done == Locate(repoId, Filter(endpoints, InRole(Consumer)));
  }

  // All entries, with a nested loop over consumers and providers.
  function NestedCalls(components: seq<ComponentRef>, repositories: seq<Repository>,
                       all: seq<Located>): Located -> seq<Entry>
  {
    (consumer: Located) => FlatMap(all, CallIfOnRoute(components, repositories, consumer))
  }

  function CallIfOnRoute(components: seq<ComponentRef>, repositories: seq<Repository>,
                         consumer: Located): Located -> seq<Entry>
  {
    (provider: Located) =>
      if RouteOf(provider.endpoint) == RouteOf(consumer.endpoint)
      then CallEntry(components, repositories, consumer)(provider) else []
  }

  function DependencyEntries(components: seq<ComponentRef>, repositories: seq<Repository>,
                             graphs: seq<Indexed>): seq<Entry>
  {
    FlatMap(repositories, RepositoryEntries(components, graphs))
    + FlatMap(AllIn(graphs, Consumer), NestedCalls(components, repositories, AllIn(graphs, Provider)))
  }

  lemma {:induction false} FlatMapFilter<T, U>(xs: seq<T>, keep: T -> bool, f: T -> seq<U>, g: T -> seq<U>)
    requires forall x | x in xs :: g(x) == if keep(x) then f(x) else []
    ensures FlatMap(Filter(xs, keep), f) == FlatMap(xs, g)
  {
    if xs != [] {
      var init, last := xs[..|xs| - 1], xs[|xs| - 1];
      FlatMapFilter(init, keep, f, g);
      if keep(last) {
        FlatMapSnoc(Filter(init, keep), f, last);
      } else {
        assert Filter(xs, keep) == Filter(init, keep);
      }
    }
  }

  lemma FilteredIsNested(components: seq<ComponentRef>, repositories: seq<Repository>, all: seq<Located>,
                         consumer: Located)
    ensures CallsOf(components, repositories, all)(consumer) == NestedCalls(components, repositories, all)(consumer)
  {
    var f, g := CallEntry(components, repositories, consumer), CallIfOnRoute(components, repositories, consumer);
    forall x | x in all ensures g(x) == if OnRoute(RouteOf(consumer.endpoint))(x) then f(x) else [] {}
    FlatMapFilter(all, OnRoute(RouteOf(consumer.endpoint)), f, g);
  }

  // The join over the provider index finds the entries of a nested loop, in its order.
  lemma HashJoinIsNestedLoop(components: seq<ComponentRef>, repositories: seq<Repository>, consumers: seq<Located>,
                             all: seq<Located>)
    ensures FlatMap(consumers, CallsOf(components, repositories, all))
        == FlatMap(consumers, NestedCalls(components, repositories, all))
  {
    forall c | c in consumers
      ensures CallsOf(components, repositories, all)(c) == NestedCalls(components, repositories, all)(c)
    {
      FilteredIsNested(components, repositories, all, c);
    }
    FlatMapSame(consumers, CallsOf(components, repositories, all), NestedCalls(components, repositories, all));
  }

  method JoinCalls(accumulator: DependencyAccumulator, index: ComponentIndex, repositories: seq<Repository>,
                   graphs: seq<Indexed>)
    requires index.Valid()
    modifies accumulator
    ensures accumulator.items == SummaryFrom(old(accumulator.items),
                                             FlatMap(AllIn(graphs, Consumer),
                                                     CallsOf(index.components, repositories, AllIn(graphs, Provider))))
  {
    var providers := IndexProviders(graphs);
    ghost var all := AllIn(graphs, Provider);
    ghost var f := CallsOf(index.components, repositories, all);
    for i := 0 to |graphs|
      invariant accumulator.items == SummaryFrom(old(accumulator.items), FlatMap(AllIn(graphs[..i], Consumer), f))
    {
      JoinStep(old(accumulator.items), graphs, f, i);
      if graphs[i].graph.Some? {
        AddConsumers(accumulator, index, repositories, providers, all, graphs[i].repoId,
            graphs[i].graph.value.endpoints);
      }
    }
    assert graphs[..|graphs|] == graphs;
  }

  lemma JoinStep(items: seq<Dependency>, graphs: seq<Indexed>, f: Located -> seq<Entry>, i: nat)
    requires i < |graphs|
    ensures SummaryFrom(items, FlatMap(AllIn(graphs[..i + 1], Consumer), f))
         == SummaryFrom(SummaryFrom(items, FlatMap(AllIn(graphs[..i], Consumer), f)),
             FlatMap(LocatedIn(Consumer)(graphs[i]), f))
  {
    FlatMapTake(graphs, LocatedIn(Consumer), i);
    FlatMapAppend(AllIn(graphs[..i], Consumer), LocatedIn(Consumer)(graphs[i]), f);
    SummaryAppend(items, FlatMap(AllIn(graphs[..i], Consumer), f), FlatMap(LocatedIn(Consumer)(graphs[i]), f));
  }

  // ---- What a dependency counts ---------------------------------------------------------

  // The evidence of an edge that joins the two components of the key, in its direction: the
  // symbol it leaves belongs to the source, the one it leads to belongs to the target.
  function EdgeLink(components: seq<ComponentRef>, repo: Repository, nodes: seq<Symbol>,
                    k: Key): Edge -> seq<Evidence> {
    (e: Edge) =>
      if k.source != k.target && e.kind in {References, Imports, Tests} && k.kind == EdgeDependency(e.kind) then
        match (Find(nodes, e.fromId), Find(nodes, e.toId))
        case (Some(s), Some(t)) =>
          if ResolvedOwner(components, repo.repoId, s.path) == Some(k.source)
             && ResolvedOwner(components, repo.repoId, t.path) == Some(k.target)
          then [Evidence(k.kind, End(repo.repoId, s.path, s.line, Some(s.id), Some(s.name), repo.sha),
                         End(repo.repoId, t.path, t.line, Some(t.id), Some(t.name), repo.sha), None, None)]
          else []
        case _ => []
      else []
  }

  function EdgeLinks(components: seq<ComponentRef>, graphs: seq<Indexed>, k: Key): Repository -> seq<Evidence> {
    (repo: Repository) =>
      match GraphFor(graphs, repo.repoId)
      case Some(g) => FlatMap(g.edges, EdgeLink(components, repo, g.nodes, k))
      case None => []
  }

  // Something for every endpoint of a role, graph by graph.
  function EachEndpoint<T>(graphs: seq<Indexed>, role: Role, h: Located -> seq<T>): seq<T> {
    FlatMap(graphs, EndpointsIn(role, h))
  }

  function EndpointsIn<T>(role: Role, h: Located -> seq<T>): Indexed -> seq<T> {
    (g: Indexed) => if g.graph.None? then [] else FlatMap(g.graph.value.endpoints, IfInRole(g.repoId, role, h))
  }

  function IfInRole<T>(repoId: string, role: Role, h: Located -> seq<T>): HttpEndpoint -> seq<T> {
    (e: HttpEndpoint) => if e.role == role then h(Located(repoId, e)) else []
  }

  // The evidence of a call: the consumer belongs to the source, the provider to the target,
  // and they agree in method and normalised route.
  function CallLink(components: seq<ComponentRef>, repositories: seq<Repository>, k: Key,
                    consumer: Located): Located -> seq<Evidence>
  {
    (provider: Located) =>
      var c, p := consumer.endpoint, provider.endpoint;
      if k.kind == Http && k.source != k.target
         && c.httpMethod == p.httpMethod && c.normalizedRoute == p.normalizedRoute
         && ResolvedOwner(components, consumer.repoId, c.path) == Some(k.source)
         && ResolvedOwner(components, provider.repoId, p.path) == Some(k.target)
      then [Evidence(Http,
                     End(consumer.repoId, c.path, c.line, c.symbolId, c.symbolName,
                         ShaOf(repositories, consumer.repoId)),
                     End(provider.repoId, p.path, p.line, p.symbolId, p.symbolName,
                         ShaOf(repositories, provider.repoId)),
                     Some(c.httpMethod), Some(c.route))]
      else []
  }

  function CallLinks(components: seq<ComponentRef>, repositories: seq<Repository>, graphs: seq<Indexed>,
                     k: Key): Located -> seq<Evidence>
  {
    (consumer: Located) => EachEndpoint(graphs, Provider, CallLink(components, repositories, k, consumer))
  }

  // Everything by which the target of the key serves its source: the edges of the listed
  // repositories, then the pairs of a consumer and a provider.
  function Links(components: seq<ComponentRef>, repositories: seq<Repository>, graphs: seq<Indexed>,
                 k: Key): seq<Evidence>
  {
    FlatMap(repositories, EdgeLinks(components, graphs, k))
    + EachEndpoint(graphs, Consumer, CallLinks(components, repositories, graphs, k))
  }

  // One dependency for each key with a link: it counts the links, and its evidence is the
  // first eight of them.
  ghost predicate ListsLinks(dependencies: seq<Dependency>, components: seq<ComponentRef>,
                             repositories: seq<Repository>, graphs: seq<Indexed>)
  {
    && DistinctKeys(dependencies)
    && (forall d | d in dependencies :: LinksListed(d, Links(components, repositories, graphs, d.key)))
    && (forall k | Links(components, repositories, graphs, k) != [] :: exists d :: d in dependencies && d.key == k)
  }

  ghost predicate LinksListed(d: Dependency, links: seq<Evidence>) {
    && d.count == |links| >= 1
    && d.evidence <= links && |d.evidence| == if |links| <= 8 then |links| else 8
  }

  function EvidenceWith(entries: seq<Entry>, k: Key): seq<Evidence> {
    Evidences(Filter(entries, HasKey(k)))
  }

  lemma EvidenceAppend(xs: seq<Entry>, ys: seq<Entry>, k: Key)
    ensures EvidenceWith(xs + ys, k) == EvidenceWith(xs, k) + EvidenceWith(ys, k)
  {
    FilterAppend(xs, ys, HasKey(k));
    EvidencesAppend(Filter(xs, HasKey(k)), Filter(ys, HasKey(k)));
  }

  lemma EvidencesAppend(xs: seq<Entry>, ys: seq<Entry>)
    ensures Evidences(xs + ys) == Evidences(xs) + Evidences(ys)
  {
  }

  lemma {:induction false} LinksOver<T>(xs: seq<T>, f: T -> seq<Entry>, k: Key, g: T -> seq<Evidence>)
    requires forall x | x in xs :: EvidenceWith(f(x), k) == g(x)
    ensures EvidenceWith(FlatMap(xs, f), k) == FlatMap(xs, g)
  {
    if xs != [] {
      var init, last := xs[..|xs| - 1], xs[|xs| - 1];
      LinksOver(init, f, k, g);
      EvidenceAppend(FlatMap(init, f), f(last), k);
    }
  }

  lemma EdgeIsLink(components: seq<ComponentRef>, repo: Repository, nodes: seq<Symbol>, k: Key, e: Edge)
    ensures EvidenceWith(EdgeEntry(components, repo, nodes)(e), k) == EdgeLink(components, repo, nodes, k)(e)
  {
    var made := EdgeEntry(components, repo, nodes)(e);
    if made != [] {
      FilterOne(made[0], HasKey(k));
      assert made == [made[0]];
    }
  }

  lemma EdgesAreLinks(components: seq<ComponentRef>, repositories: seq<Repository>, graphs: seq<Indexed>, k: Key)
    ensures EvidenceWith(FlatMap(repositories, RepositoryEntries(components, graphs)), k)
         == FlatMap(repositories, EdgeLinks(components, graphs, k))
  {
    forall repo | repo in repositories
      ensures EvidenceWith(RepositoryEntries(components, graphs)(repo), k) == EdgeLinks(components, graphs, k)(repo)
    {
      if GraphFor(graphs, repo.repoId).Some? {
        var g := GraphFor(graphs, repo.repoId).value;
        forall e | e in g.edges
          ensures EvidenceWith(EdgeEntry(components, repo, g.nodes)(e), k)
               == EdgeLink(components, repo, g.nodes, k)(e)
        {
          EdgeIsLink(components, repo, g.nodes, k, e);
        }
        LinksOver(g.edges, EdgeEntry(components, repo, g.nodes), k, EdgeLink(components, repo, g.nodes, k));
      }
    }
    LinksOver(repositories, RepositoryEntries(components, graphs), k, EdgeLinks(components, graphs, k));
  }

  lemma {:induction false} LocatedEach<T>(repoId: string, endpoints: seq<HttpEndpoint>, role: Role,
                                          h: Located -> seq<T>)
    ensures FlatMap(Locate(repoId, Filter(endpoints, InRole(role))), h)
         == FlatMap(endpoints, IfInRole(repoId, role, h))
  {
    if endpoints != [] {
      var init, last := endpoints[..|endpoints| - 1], endpoints[|endpoints| - 1];
      LocatedEach(repoId, init, role, h);
      if last.role == role {
        var before := Locate(repoId, Filter(init, InRole(role)));
        assert Locate(repoId, Filter(init, InRole(role)) + [last]) == before + [Located(repoId, last)];
        FlatMapSnoc(before, h, Located(repoId, last));
      } else {
        assert Filter(endpoints, InRole(role)) == Filter(init, InRole(role));
      }
    }
  }

  lemma AllInEach<T>(graphs: seq<Indexed>, role: Role, h: Located -> seq<T>)
    ensures FlatMap(AllIn(graphs, role), h) == EachEndpoint(graphs, role, h)
  {
    forall g | g in graphs ensures EndpointsIn(role, h)(g) == FlatMap(LocatedIn(role)(g), h) {
      if g.graph.Some? {
        LocatedEach(g.repoId, g.graph.value.endpoints, role, h);
      }
    }
    FlatMapTwice(graphs, LocatedIn(role), h, EndpointsIn(role, h));
  }

  lemma CallIsLink(components: seq<ComponentRef>, repositories: seq<Repository>, k: Key, consumer: Located,
                   provider: Located)
    ensures EvidenceWith(CallIfOnRoute(components, repositories, consumer)(provider), k)
         == CallLink(components, repositories, k, consumer)(provider)
  {
    var made := CallEntry(components, repositories, consumer)(provider);
    if made != [] {
      FilterOne(made[0], HasKey(k));
      assert made == [made[0]];
    }
  }

  lemma CallsAreLinks(components: seq<ComponentRef>, repositories: seq<Repository>, graphs: seq<Indexed>, k: Key)
    ensures EvidenceWith(FlatMap(AllIn(graphs, Consumer),
        NestedCalls(components, repositories, AllIn(graphs, Provider))),
                         k)
         == EachEndpoint(graphs, Consumer, CallLinks(components, repositories, graphs, k))
  {
    var all := AllIn(graphs, Provider);
    forall c | c in AllIn(graphs, Consumer)
      ensures EvidenceWith(NestedCalls(components, repositories, all)(c), k)
           == CallLinks(components, repositories, graphs, k)(c)
    {
      CallsOfOne(components, repositories, graphs, k, c);
    }
    LinksOver(AllIn(graphs, Consumer), NestedCalls(components, repositories, all), k,
              CallLinks(components, repositories, graphs, k));
    AllInEach(graphs, Consumer, CallLinks(components, repositories, graphs, k));
  }

  lemma CallsOfOne(components: seq<ComponentRef>, repositories: seq<Repository>, graphs: seq<Indexed>, k: Key,
                   c: Located)
    ensures EvidenceWith(NestedCalls(components, repositories, AllIn(graphs, Provider))(c), k)
         == CallLinks(components, repositories, graphs, k)(c)
  {
    var all := AllIn(graphs, Provider);
    forall p | p in all
      ensures EvidenceWith(CallIfOnRoute(components, repositories, c)(p), k)
           == CallLink(components, repositories, k, c)(p)
    {
      CallIsLink(components, repositories, k, c, p);
    }
    LinksOver(all, CallIfOnRoute(components, repositories, c), k, CallLink(components, repositories, k, c));
    AllInEach(graphs, Provider, CallLink(components, repositories, k, c));
  }

  lemma EvidenceCount(entries: seq<Entry>, k: Key)
    ensures |EvidenceWith(entries, k)| == |Filter(entries, HasKey(k))|
  {
  }

  lemma EntriesAreLinks(components: seq<ComponentRef>, repositories: seq<Repository>, graphs: seq<Indexed>, k: Key)
    ensures EvidenceWith(DependencyEntries(components, repositories, graphs), k)
         == Links(components, repositories, graphs, k)
  {
    EdgesAreLinks(components, repositories, graphs, k);
    CallsAreLinks(components, repositories, graphs, k);
    EvidenceAppend(FlatMap(repositories, RepositoryEntries(components, graphs)),
                   FlatMap(AllIn(graphs, Consumer), NestedCalls(components, repositories, AllIn(graphs, Provider))), k);
  }

  lemma ListedLinks(d: Dependency, entries: seq<Entry>, links: seq<Evidence>)
    requires EvidenceWith(entries, d.key) == links
    requires d.count == |Filter(entries, HasKey(d.key))| >= 1
    requires d.evidence == FirstFew(Evidences(Filter(entries, HasKey(d.key))))
    ensures LinksListed(d, links)
  {
    EvidenceCount(entries, d.key);
  }

  lemma SummaryListsLinks(dependencies: seq<Dependency>, components: seq<ComponentRef>, repositories: seq<Repository>,
                          graphs: seq<Indexed>)
    requires SummaryOf(dependencies, DependencyEntries(components, repositories, graphs))
    ensures ListsLinks(dependencies, components, repositories, graphs)
  {
    var entries := DependencyEntries(components, repositories, graphs);
    forall d | d in dependencies ensures LinksListed(d, Links(components, repositories, graphs, d.key)) {
      EntriesAreLinks(components, repositories, graphs, d.key);
      ListedLinks(d, entries, Links(components, repositories, graphs, d.key));
    }
    forall k | Links(components, repositories, graphs, k) != []
      ensures exists d :: d in dependencies && d.key == k
    {
      EntriesAreLinks(components, repositories, graphs, k);
      EvidenceCount(entries, k);
      var e := Filter(entries, HasKey(k))[0];
      FilterMember(entries, HasKey(k), e);
    }
  }

  lemma SortedInOrder(dependencies: seq<Dependency>)
    requires SortedBy(dependencies, DependencyLe)
    ensures InOrder(dependencies)
  {
    forall i, j | 0 <= i < j < |dependencies| ensures NotAfter(dependencies[i], dependencies[j]) {
      LeIsNotAfter(dependencies[i], dependencies[j]);
    }
  }

  lemma LeIsNotAfter(a: Dependency, b: Dependency)
    requires DependencyLe(a, b)
    ensures NotAfter(a, b)
  {
    LexTotal(a.key.source, a.key.source);
    LexTotal(a.key.target, a.key.target);
  }

  // Most frequent first, then by the names of the source, the target and the kind.
  ghost predicate InOrder(dependencies: seq<Dependency>) {
    forall i, j | 0 <= i < j < |dependencies| :: NotAfter(dependencies[i], dependencies[j])
  }

  predicate NotAfter(a: Dependency, b: Dependency) {
    && a.count >= b.count
    && (a.count == b.count ==> LexLe(a.key.source, b.key.source))
    && (a.count == b.count && a.key.source == b.key.source ==> LexLe(a.key.target, b.key.target))
    && (a.count == b.count && a.key.source == b.key.source && a.key.target == b.key.target ==>
          LexLe(KindName(a.key.kind), KindName(b.key.kind)))
  }

  // build_dependencies
  method BuildDependencies(repositories: seq<Repository>, components: seq<ComponentRef>, graphs: seq<Indexed>)
    returns (dependencies: seq<Dependency>)
    ensures dependencies == SortBy(Summary(DependencyEntries(components, repositories, graphs)), DependencyLe)
    ensures SummaryOf(dependencies, DependencyEntries(components, repositories, graphs))
    ensures ListsLinks(dependencies, components, repositories, graphs)
    ensures SortedBy(dependencies, DependencyLe) && InOrder(dependencies)
  {
    var index := new ComponentIndex(components);
    var accumulator := new DependencyAccumulator();
    AddRepositories(accumulator, index, repositories, graphs);
    JoinCalls(accumulator, index, repositories, graphs);
    HashJoinIsNestedLoop(components, repositories, AllIn(graphs, Consumer), AllIn(graphs, Provider));
    SummaryAppend([], FlatMap(repositories, RepositoryEntries(components, graphs)),
                  FlatMap(AllIn(graphs, Consumer), NestedCalls(components, repositories, AllIn(graphs, Provider))));
    SummaryExact(DependencyEntries(components, repositories, graphs));
    dependencies := accumulator.Result();
    SummaryReordered(accumulator.items, dependencies, DependencyEntries(components, repositories, graphs));
    SummaryListsLinks(dependencies, components, repositories, graphs);
    SortedInOrder(dependencies);
  }
}
