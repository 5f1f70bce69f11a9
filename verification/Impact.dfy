// Which components a change reaches (architecture/impact.py).
module Impact {
  import opened Lists
  import opened Strings
  import opened Sorting
  import opened CodeGraph
  import opened Matching
  import opened DependencySummary
  import opened Dependencies

  datatype ChangedFileRef = ChangedFileRef(repoId: string, path: string)

  const MAX_CHANGED_SYMBOLS := 10

  datatype TouchedComponent = TouchedComponent(componentId: string, changedFiles: seq<string>, changedSymbols: seq<End>)

  datatype Direction = Provides | Consumes

  datatype ReachKey = ReachKey(componentId: string, viaComponentId: string, direction: Direction)

  datatype Reached = Reached(key: ReachKey, kinds: seq<DependencyKind>, count: nat)

  // ---- Touched components -------------------------------------------------------------

  predicate OwnedBy(components: seq<ComponentRef>, changed: ChangedFileRef, id: string) {
    ResolvedOwner(components, changed.repoId, changed.path) == Some(id)
  }

  function Unowned(components: seq<ComponentRef>): ChangedFileRef -> bool {
    (c: ChangedFileRef) => ResolvedOwner(components, c.repoId, c.path) == None
  }

  predicate Touches(components: seq<ComponentRef>, changed: seq<ChangedFileRef>, id: string, path: string) {
    exists c | c in changed :: OwnedBy(components, c, id) && c.path == path
  }

  predicate TouchesAny(components: seq<ComponentRef>, changed: seq<ChangedFileRef>, id: string) {
    exists c | c in changed :: OwnedBy(components, c, id)
  }

  // touched[id] lists, without repetition, the paths of the changed files id owns.
  ghost predicate TouchedBy(touched: map<string, seq<string>>, components: seq<ComponentRef>,
                            changed: seq<ChangedFileRef>)
  {
    && (forall id: string :: id in touched <==> TouchesAny(components, changed, id))
    && (forall id | id in touched :: Distinct(touched[id]))
    && (forall id, path: string | id in touched :: path in touched[id] <==> Touches(components, changed, id, path))
  }

  lemma TouchesNext(components: seq<ComponentRef>, changed: seq<ChangedFileRef>, c: ChangedFileRef, id: string,
                    path: string)
    ensures Touches(components, changed + [c], id, path)
       <==> Touches(components, changed, id, path) || (OwnedBy(components, c, id) && c.path == path)
    ensures TouchesAny(components, changed + [c], id)
        <==> TouchesAny(components, changed, id) || OwnedBy(components, c, id)
  {
    assert forall d :: d in changed + [c] <==> d in changed || d == c;
  }

  function FilesOf(touched: map<string, seq<string>>, id: string): seq<string> {
    if id in touched then touched[id] else []
  }

  function WithFile(files: seq<string>, path: string): seq<string> {
    if path in files then files else files + [path]
  }

  lemma TouchedFiles(touched: map<string, seq<string>>, components: seq<ComponentRef>, changed: seq<ChangedFileRef>,
                     id: string)
    requires TouchedBy(touched, components, changed)
    ensures Distinct(FilesOf(touched, id))
    ensures forall path: string :: path in FilesOf(touched, id) <==> Touches(components, changed, id, path)
  {
    if id !in touched {
      assert !TouchesAny(components, changed, id);
    }
  }

  lemma TouchedNext(touched: map<string, seq<string>>, components: seq<ComponentRef>, changed: seq<ChangedFileRef>,
                    c: ChangedFileRef, id: string)
    requires TouchedBy(touched, components, changed) && OwnedBy(components, c, id)
    ensures TouchedBy(touched[id := WithFile(FilesOf(touched, id), c.path)], components, changed + [c])
  {
    var files := WithFile(FilesOf(touched, id), c.path);
    TouchedFiles(touched, components, changed, id);
    assert Distinct(files);
    forall i: string ensures i in touched[id := files] <==> TouchesAny(components, changed + [c], i) {
      TouchesNext(components, changed, c, i, c.path);
    }
    forall i, path: string | i in touched[id := files]
      ensures path in touched[id := files][i] <==> Touches(components, changed + [c], i, path)
    {
      TouchesNext(components, changed, c, i, path);
    }
  }

  lemma UnownedTouchesNothing(touched: map<string, seq<string>>, components: seq<ComponentRef>,
                              changed: seq<ChangedFileRef>, c: ChangedFileRef)
    requires TouchedBy(touched, components, changed) && Unowned(components)(c)
    ensures TouchedBy(touched, components, changed + [c])
  {
    forall i: string, path: string
      ensures Touches(components, changed + [c], i, path) <==> Touches(components, changed, i, path)
      ensures TouchesAny(components, changed + [c], i) <==> TouchesAny(components, changed, i)
    {
      TouchesNext(components, changed, c, i, path);
    }
  }

  method TouchComponents(index: ComponentIndex, changed: seq<ChangedFileRef>)
    returns (touched: map<string, seq<string>>, unmapped: seq<ChangedFileRef>)
    requires index.Valid()
    ensures TouchedBy(touched, index.components, changed)
    ensures unmapped == Filter(changed, Unowned(index.components))
  {
    touched, unmapped := map[], [];
    for i := 0 to |changed|
      invariant TouchedBy(touched, index.components, changed[..i])
      invariant unmapped == Filter(changed[..i], Unowned(index.components))
    {
      assert changed[..i + 1] == changed[..i] + [changed[i]];
      FilterTake(changed, Unowned(index.components), i);
      var owner := index.Resolve(changed[i].repoId, changed[i].path);
      if owner.None? {
        UnownedTouchesNothing(touched, index.components, changed[..i], changed[i]);
        unmapped := unmapped + [changed[i]];
        continue;
      }
      TouchedNext(touched, index.components, changed[..i], changed[i], owner.value);
      touched := touched[owner.value := WithFile(FilesOf(touched, owner.value), changed[i].path)];
    }
    assert changed[..|changed|] == changed;
  }

  // ---- Changed symbols -----------------------------------------------------------------------

  // changed_by_repo: the repositories in the order they first appear, and the changed
  // paths of each
  function ReposIn(changed: seq<ChangedFileRef>): (repos: seq<string>)
    ensures Distinct(repos) && forall r :: r in repos <==> exists c :: c in changed && c.repoId == r
    ensures changed != [] ==> ReposIn(changed[..|changed| - 1]) <= repos
  {
    assert changed != [] ==> changed == changed[..|changed| - 1] + [changed[|changed| - 1]];
    if changed == [] then []
    else
      var before, repoId := ReposIn(changed[..|changed| - 1]), changed[|changed| - 1].repoId;
      if repoId in before then before else before + [repoId]
  }

  function PathsIn(changed: seq<ChangedFileRef>, repoId: string): set<string> {
    set c | c in changed && c.repoId == repoId :: c.path
  }

  // The symbol, if it lies in a changed file and in the component.
  function SymbolHit(components: seq<ComponentRef>, sha: Option<string>, paths: set<string>, repoId: string,
                     id: string):
    Symbol -> seq<End>
  {
    (s: Symbol) =>
      if s.path in paths && id != "" && ResolvedOwner(components, repoId, s.path) == Some(id)
      then [SymbolEnd(Repository(repoId, sha), s)] else []
  }

  function SymbolsIn(components: seq<ComponentRef>, repositories: seq<Repository>, changed: seq<ChangedFileRef>,
                     graphs: seq<Indexed>, id: string): string -> seq<End>
  {
    (repoId: string) =>
      match GraphFor(graphs, repoId)
      case Some(g) => FlatMap(g.nodes,
          SymbolHit(components, ShaOf(repositories, repoId), PathsIn(changed, repoId), repoId, id))
      case None => []
  }

  // All symbols of the component in changed files, repository by repository.
  function ChangedSymbols(components: seq<ComponentRef>, repositories: seq<Repository>, changed: seq<ChangedFileRef>,
                          graphs: seq<Indexed>): string -> seq<End>
  {
    (id: string) => FlatMap(ReposIn(changed), SymbolsIn(components, repositories, changed, graphs, id))
  }

  function Capped(ends: seq<End>): seq<End> {
    if |ends| <= MAX_CHANGED_SYMBOLS then ends else ends[..MAX_CHANGED_SYMBOLS]
  }

  lemma CappedSnoc(ends: seq<End>, end: End)
    ensures Capped(ends + [end]) == if |Capped(ends)| < MAX_CHANGED_SYMBOLS then Capped(ends) + [end] else Capped(ends)
  {
  }

  // The lists hold the first ten of what has been found.
  ghost predicate ListsFound(symbols: map<string, seq<End>>, found: string -> seq<End>) {
    forall id | id in symbols :: symbols[id] == Capped(found(id))
  }

  function FoundAlso(found: string -> seq<End>, nodes: seq<Symbol>,
                     hits: string -> (Symbol -> seq<End>)): string -> seq<End>
  {
    (id: string) => found(id) + FlatMap(nodes, hits(id))
  }

  function Hits(components: seq<ComponentRef>, sha: Option<string>, paths: set<string>, repoId: string):
    string -> (Symbol -> seq<End>)
  {
    (id: string) => SymbolHit(components, sha, paths, repoId, id)
  }

  lemma CappedGrows(before: seq<End>, hit: seq<End>)
    requires |hit| <= 1
    ensures Capped(before + hit)
         == if |hit| == 1 && |Capped(before)| < MAX_CHANGED_SYMBOLS then Capped(before) + hit else Capped(before)
  {
    if hit == [] {
      assert before + hit == before;
    } else {
      CappedSnoc(before, hit[0]);
      assert hit == [hit[0]];
    }
  }

  lemma FoundOneMore(found: string -> seq<End>, hits: string -> (Symbol -> seq<End>), nodes: seq<Symbol>, i: nat,
                     id: string)
    requires i < |nodes|
    ensures FoundAlso(found, nodes[..i + 1], hits)(id) == FoundAlso(found, nodes[..i], hits)(id) + hits(id)(nodes[i])
  {
    FlatMapTake(nodes, hits(id), i);
  }

  lemma ListsNext(symbols: map<string, seq<End>>, next: map<string, seq<End>>, found: string -> seq<End>,
                  hits: string -> (Symbol -> seq<End>), nodes: seq<Symbol>, i: nat)
    requires i < |nodes| && ListsFound(symbols, FoundAlso(found, nodes[..i], hits)) && next.Keys == symbols.Keys
    requires forall id | id in symbols ::
        |hits(id)(nodes[i])| <= 1 && next[id] == Grown(symbols[id], hits(id)(nodes[i]))
    ensures ListsFound(next, FoundAlso(found, nodes[..i + 1], hits))
  {
    forall id | id in next ensures next[id] == Capped(FoundAlso(found, nodes[..i + 1], hits)(id)) {
      FoundOneMore(found, hits, nodes, i, id);
      CappedGrows(FoundAlso(found, nodes[..i], hits)(id), hits(id)(nodes[i]));
    }
  }

  // A list of at most ten after one more symbol, if it was hit.
  function Grown(list: seq<End>, hit: seq<End>): seq<End> {
    if |hit| == 1 && |list| < MAX_CHANGED_SYMBOLS then list + hit else list
  }

  // The loop over the symbols of one repository.
  method AddSymbols(index: ComponentIndex, sha: Option<string>, paths: set<string>, repoId: string, nodes: seq<Symbol>,
                    symbols0: map<string, seq<End>>, ghost found: string -> seq<End>)
    returns (symbols: map<string, seq<End>>)
    requires index.Valid() && ListsFound(symbols0, found)
    ensures symbols.Keys == symbols0.Keys
    ensures ListsFound(symbols, FoundAlso(found, nodes, Hits(index.components, sha, paths, repoId)))
  {
    ghost var hits := Hits(index.components, sha, paths, repoId);
    symbols := symbols0;
    for i := 0 to |nodes|
      invariant symbols.Keys == symbols0.Keys && ListsFound(symbols, FoundAlso(found, nodes[..i], hits))
    {
      ghost var before := symbols;
      symbols := AddSymbol(index, sha, paths, repoId, nodes[i], symbols);
      ListsNext(before, symbols, found, hits, nodes, i);
    }
    assert nodes[..|nodes|] == nodes;
  }

  // The body of that loop.
  method AddSymbol(index: ComponentIndex, sha: Option<string>, paths: set<string>, repoId: string, symbol: Symbol,
                   symbols0: map<string, seq<End>>)
    returns (symbols: map<string, seq<End>>)
    requires index.Valid()
    ensures symbols.Keys == symbols0.Keys
    ensures forall id | id in symbols0 ::
        (var hit := Hits(index.components, sha, paths, repoId)(id)(symbol);
         |hit| <= 1 && symbols[id] == Grown(symbols0[id], hit))
  {
    symbols := symbols0;
    if symbol.path !in paths {
      return;
    }
    var owner := index.Resolve(repoId, symbol.path);
    if owner.None? || owner.value == "" || owner.value !in symbols || |symbols[owner.value]| >= MAX_CHANGED_SYMBOLS {
      return;
    }
    symbols := symbols[owner.value := symbols[owner.value] + [SymbolEnd(Repository(repoId, sha), symbol)]];
  }

  // What the repositories so far contribute.
  function FoundIn(repos: seq<string>, components: seq<ComponentRef>, repositories: seq<Repository>,
                   changed: seq<ChangedFileRef>, graphs: seq<Indexed>): string -> seq<End>
  {
    (id: string) => FlatMap(repos, SymbolsIn(components, repositories, changed, graphs, id))
  }

  lemma RepoNext(symbols: map<string, seq<End>>, repos: seq<string>, i: nat, components: seq<ComponentRef>,
                 repositories: seq<Repository>, changed: seq<ChangedFileRef>, graphs: seq<Indexed>)
    requires i < |repos|
    requires (var found := FoundIn(repos[..i], components, repositories, changed, graphs);
              match GraphFor(graphs, repos[i])
              case Some(g) =>
                var sha, paths := ShaOf(repositories, repos[i]), PathsIn(changed, repos[i]);
                ListsFound(symbols, FoundAlso(found, g.nodes, Hits(components, sha, paths, repos[i])))
              case None => ListsFound(symbols, found))
    ensures ListsFound(symbols, FoundIn(repos[..i + 1], components, repositories, changed, graphs))
  {
    forall id | id in symbols
      ensures symbols[id] == Capped(FoundIn(repos[..i + 1], components, repositories, changed, graphs)(id))
    {
      FlatMapTake(repos, SymbolsIn(components, repositories, changed, graphs, id), i);
    }
  }

  method ListSymbols(index: ComponentIndex, repositories: seq<Repository>, changed: seq<ChangedFileRef>,
                     graphs: seq<Indexed>, ids: set<string>)
    returns (symbols: map<string, seq<End>>)
    requires index.Valid()
    ensures symbols.Keys == ids
    ensures forall id | id in ids ::
        symbols[id] == Capped(ChangedSymbols(index.components, repositories, changed, graphs)(id))
  {
    var repos := ReposIn(changed);
    symbols := map id | id in ids :: [];
    for i := 0 to |repos|
      invariant symbols.Keys == ids
      invariant ListsFound(symbols, FoundIn(repos[..i], index.components, repositories, changed, graphs))
    {
      var repoId := repos[i];
      var graph := GraphFor(graphs, repoId);
      if graph.Some? {
        symbols := AddSymbols(index, ShaOf(repositories, repoId), PathsIn(changed, repoId), repoId,
                              graph.value.nodes, symbols,
                              FoundIn(repos[..i], index.components, repositories, changed, graphs));
      }
      RepoNext(symbols, repos, i, index.components, repositories, changed, graphs);
    }
    assert repos[..|repos|] == repos;
  }

  // ---- The list of touched components ---------------------------------------------------------

  predicate ByComponent(a: TouchedComponent, b: TouchedComponent) {
    LexLe(a.componentId, b.componentId)
  }

  lemma ComponentOrder()
    ensures TotalOrder(ByComponent)
  {
    forall a: TouchedComponent, b: TouchedComponent ensures Comparable(ByComponent, a, b) {
      LexTotal(a.componentId, b.componentId);
    }
    forall a: TouchedComponent, b: TouchedComponent, c: TouchedComponent ensures Passes(ByComponent, a, b, c) {
      if ByComponent(a, b) && ByComponent(b, c) { LexTransitive(a.componentId, b.componentId, c.componentId); }
    }
  }

  ghost predicate ListsTouched(list: seq<TouchedComponent>, touched: map<string, seq<string>>,
                               symbols: map<string, seq<End>>)
  {
    && (forall t | t in list :: t.componentId in touched && t.componentId in symbols
          && t.changedFiles == touched[t.componentId] && t.changedSymbols == symbols[t.componentId])
    && (forall id | id in touched :: exists t :: t in list && t.componentId == id)
  }

  function Ids(list: seq<TouchedComponent>): set<string> {
    set t | t in list :: t.componentId
  }

  // sorted(touched.values(), key=componentId)
  method SortTouched(touched: map<string, seq<string>>, symbols: map<string, seq<End>>)
    returns (list: seq<TouchedComponent>)
    requires symbols.Keys == touched.Keys
    ensures ListsTouched(list, touched, symbols) && Ids(list) == touched.Keys
    ensures SortedBy(list, ByComponent) && |list| == |touched|
  {
    var entries: seq<TouchedComponent> := [];
    var rest := touched.Keys;
    while rest != {}
      invariant rest <= touched.Keys && |entries| + |rest| == |touched.Keys|
      invariant forall t | t in entries :: t.componentId in touched
                  && t.changedFiles == touched[t.componentId] && t.changedSymbols == symbols[t.componentId]
      invariant forall id | id in touched && id !in rest :: exists t :: t in entries && t.componentId == id
      decreases |rest|
    {
      var id :| id in rest;
      var t := TouchedComponent(id, touched[id], symbols[id]);
      assert forall u :: u in entries + [t] <==> u in entries || u == t;
      entries, rest := entries + [t], rest - {id};
    }
    ComponentOrder();
    SortSorts(entries, ByComponent);
    SortMembers(entries, ByComponent);
    list := SortBy(entries, ByComponent);
  }

  // ---- Reached components -----------------------------------------------------------------

  // What a dependency across the boundary of the touched components registers.
  function Registers(k: Key, touched: set<string>): Option<ReachKey> {
    if k.source in touched && k.target !in touched then Some(ReachKey(k.target, k.source, Provides))
    else if k.target in touched && k.source !in touched then Some(ReachKey(k.source, k.target, Consumes))
    else None
  }

  function Extend(r: Reached, kind: DependencyKind, count: nat): Reached {
    Reached(r.key, if kind in r.kinds then r.kinds else r.kinds + [kind], r.count + count)
  }

  // register, on the dictionary of reached components in insertion order
  function Register(reached: seq<Reached>, key: ReachKey, kind: DependencyKind, count: nat): seq<Reached> {
    if reached == [] then [Extend(Reached(key, [], 0), kind, count)]
    else if reached[0].key == key then [Extend(reached[0], kind, count)] + reached[1..]
    else [reached[0]] + Register(reached[1..], key, kind, count)
  }

  function ReachedBy(dependencies: seq<Dependency>, touched: set<string>): seq<Reached> {
    if dependencies == [] then []
    else
      var d, reached := dependencies[|dependencies| - 1], ReachedBy(dependencies[..|dependencies| - 1], touched);
      match Registers(d.key, touched)
      case Some(key) => Register(reached, key, d.key.kind, d.count)
      case None => reached
  }

  method Reach(dependencies: seq<Dependency>, touched: set<string>) returns (reached: seq<Reached>)
    ensures reached == ReachedBy(dependencies, touched)
  {
    reached := [];
    for i := 0 to |dependencies|
      invariant reached == ReachedBy(dependencies[..i], touched)
    {
      var d := dependencies[i];
      assert dependencies[..i + 1][..i] == dependencies[..i];
      if d.key.source in touched && d.key.target !in touched {
        reached := Register(reached, ReachKey(d.key.target, d.key.source, Provides), d.key.kind, d.count);
      }
      if d.key.target in touched && d.key.source !in touched {
        reached := Register(reached, ReachKey(d.key.source, d.key.target, Consumes), d.key.kind, d.count);
      }
    }
    assert dependencies[..|dependencies|] == dependencies;
  }

  // Most dependencies first, then by the component and the one it is reached through.
  predicate ReachedLe(a: Reached, b: Reached) {
    a.count > b.count
    || (a.count == b.count
        && ThenBy(a.key.componentId, b.key.componentId, LexLe(a.key.viaComponentId, b.key.viaComponentId)))
  }

  lemma ReachedOrder()
    ensures TotalOrder(ReachedLe)
  {
    forall a: Reached, b: Reached ensures Comparable(ReachedLe, a, b) {
      LexTotal(a.key.viaComponentId, b.key.viaComponentId);
      ThenByTotal(a.key.componentId, b.key.componentId, LexLe(a.key.viaComponentId, b.key.viaComponentId),
                  LexLe(b.key.viaComponentId, a.key.viaComponentId));
    }
    forall a: Reached, b: Reached, c: Reached ensures Passes(ReachedLe, a, b, c) {
      if ReachedLe(a, b) && ReachedLe(b, c) { ReachedPass(a, b, c); }
    }
  }

  // Most dependencies first, then by the names of the component and its neighbour.
  ghost predicate MostReachedFirst(reached: seq<Reached>) {
    forall i, j | 0 <= i < j < |reached| :: ReachedNotAfter(reached[i], reached[j])
  }

  predicate ReachedNotAfter(a: Reached, b: Reached) {
    && a.count >= b.count
    && (a.count == b.count ==> LexLe(a.key.componentId, b.key.componentId))
    && (a.count == b.count && a.key.componentId == b.key.componentId ==>
          LexLe(a.key.viaComponentId, b.key.viaComponentId))
  }

  lemma SortedReached(reached: seq<Reached>)
    requires SortedBy(reached, ReachedLe)
    ensures MostReachedFirst(reached)
  {
    forall i, j | 0 <= i < j < |reached| ensures ReachedNotAfter(reached[i], reached[j]) {
      LexTotal(reached[i].key.componentId, reached[i].key.componentId);
    }
  }

  lemma ReachedPass(a: Reached, b: Reached, c: Reached)
    requires ReachedLe(a, b) && ReachedLe(b, c)
    ensures ReachedLe(a, c)
  {
    if a.count == b.count == c.count {
      var x, y, z := a.key.viaComponentId, b.key.viaComponentId, c.key.viaComponentId;
      if LexLe(x, y) && LexLe(y, z) { LexTransitive(x, y, z); }
      ThenByPasses(a.key.componentId, b.key.componentId, c.key.componentId, LexLe(x, y), LexLe(y, z), LexLe(x, z));
    }
  }

  // ---- build_impact ----------------------------------------------------------------------------

  // A symbol of a file that changed in its repository, if the component owns that file.
  function TouchedSymbol(components: seq<ComponentRef>, changed: seq<ChangedFileRef>, repoId: string,
                         sha: Option<string>, id: string): Symbol -> seq<End>
  {
    (s: Symbol) =>
      if id != "" && ChangedFileRef(repoId, s.path) in changed
         && ResolvedOwner(components, repoId, s.path) == Some(id)
      then [End(repoId, s.path, s.line, Some(s.id), Some(s.name), sha)] else []
  }

  function TouchedInRepo(components: seq<ComponentRef>, repositories: seq<Repository>, changed: seq<ChangedFileRef>,
                         graphs: seq<Indexed>, id: string): string -> seq<End>
  {
    (repoId: string) =>
      match GraphFor(graphs, repoId)
      case None => []
      case Some(g) => FlatMap(g.nodes, TouchedSymbol(components, changed, repoId, ShaOf(repositories, repoId), id))
  }

  // All of them, repository by repository as the changed files name them.
  function TouchedSymbols(components: seq<ComponentRef>, repositories: seq<Repository>, changed: seq<ChangedFileRef>,
                          graphs: seq<Indexed>, id: string): seq<End>
  {
    FlatMap(ReposIn(changed), TouchedInRepo(components, repositories, changed, graphs, id))
  }

  lemma ChangedAreTouched(components: seq<ComponentRef>, repositories: seq<Repository>, changed: seq<ChangedFileRef>,
                          graphs: seq<Indexed>, id: string)
    ensures ChangedSymbols(components, repositories, changed, graphs)(id)
         == TouchedSymbols(components, repositories, changed, graphs, id)
  {
    forall repoId | repoId in ReposIn(changed)
      ensures SymbolsIn(components, repositories, changed, graphs, id)(repoId)
           == TouchedInRepo(components, repositories, changed, graphs, id)(repoId)
    {
      if GraphFor(graphs, repoId).Some? {
        RepoSymbols(components, changed, repoId, ShaOf(repositories, repoId), id, GraphFor(graphs, repoId).value.nodes);
      }
    }
    FlatMapSame(ReposIn(changed), SymbolsIn(components, repositories, changed, graphs, id),
                TouchedInRepo(components, repositories, changed, graphs, id));
  }

  lemma RepoSymbols(components: seq<ComponentRef>, changed: seq<ChangedFileRef>, repoId: string, sha: Option<string>,
                    id: string, nodes: seq<Symbol>)
    ensures FlatMap(nodes, SymbolHit(components, sha, PathsIn(changed, repoId), repoId, id))
         == FlatMap(nodes, TouchedSymbol(components, changed, repoId, sha, id))
  {
    forall s | s in nodes
      ensures SymbolHit(components, sha, PathsIn(changed, repoId), repoId, id)(s)
           == TouchedSymbol(components, changed, repoId, sha, id)(s)
    {
      assert s.path in PathsIn(changed, repoId) <==> ChangedFileRef(repoId, s.path) in changed;
    }
    FlatMapSame(nodes, SymbolHit(components, sha, PathsIn(changed, repoId), repoId, id),
                TouchedSymbol(components, changed, repoId, sha, id));
  }

  lemma FirstTen(components: seq<ComponentRef>, repositories: seq<Repository>, changed: seq<ChangedFileRef>,
                 graphs: seq<Indexed>, id: string, listed: seq<End>)
    requires listed == Capped(ChangedSymbols(components, repositories, changed, graphs)(id))
    ensures FirstTenOf(listed, TouchedSymbols(components, repositories, changed, graphs, id))
  {
    ChangedAreTouched(components, repositories, changed, graphs, id);
  }

  ghost predicate FirstTenOf(listed: seq<End>, all: seq<End>) {
    listed <= all && |listed| == if |all| <= 10 then |all| else 10
  }

  // The components that own a changed file, in order, with those files and the first ten
  // of their symbols in changed files.
  ghost predicate TouchedExact(list: seq<TouchedComponent>, components: seq<ComponentRef>,
                               repositories: seq<Repository>,
                               changed: seq<ChangedFileRef>, graphs: seq<Indexed>)
  {
    && SortedBy(list, ByComponent) && |list| == |Ids(list)|
    && (forall id: string :: id in Ids(list) <==> TouchesAny(components, changed, id))
    && (forall t | t in list ::
          && Distinct(t.changedFiles)
          && (forall path: string :: path in t.changedFiles <==> Touches(components, changed, t.componentId, path))
          && FirstTenOf(t.changedSymbols, TouchedSymbols(components, repositories, changed, graphs, t.componentId)))
  }

  // As often as they are listed, those without an owner.
  ghost predicate WithoutOwner(unmapped: seq<ChangedFileRef>, components: seq<ComponentRef>,
                               changed: seq<ChangedFileRef>)
  {
    forall c: ChangedFileRef :: multiset(unmapped)[c]
        == if ResolvedOwner(components, c.repoId, c.path).None? then multiset(changed)[c] else 0
  }

  ghost predicate WithoutGraph(stale: seq<Repository>, repositories: seq<Repository>, graphs: seq<Indexed>) {
    forall r: Repository :: multiset(stale)[r]
        == if GraphFor(graphs, r.repoId).None? then multiset(repositories)[r] else 0
  }

  lemma UnmappedAre(components: seq<ComponentRef>, changed: seq<ChangedFileRef>)
    ensures WithoutOwner(Filter(changed, Unowned(components)), components, changed)
  {
    forall c: ChangedFileRef ensures multiset(Filter(changed, Unowned(components)))[c]
        == if ResolvedOwner(components, c.repoId, c.path).None? then multiset(changed)[c] else 0
    {
      FilterCount(changed, Unowned(components), c);
    }
  }

  lemma StaleAre(repositories: seq<Repository>, graphs: seq<Indexed>)
    ensures WithoutGraph(Filter(repositories, Stale(graphs)), repositories, graphs)
  {
    forall r: Repository ensures multiset(Filter(repositories, Stale(graphs)))[r]
        == if GraphFor(graphs, r.repoId).None? then multiset(repositories)[r] else 0
    {
      FilterCount(repositories, Stale(graphs), r);
    }
  }

  function Stale(graphs: seq<Indexed>): Repository -> bool {
    (r: Repository) => GraphFor(graphs, r.repoId).None?
  }

  method BuildImpact(repositories: seq<Repository>, components: seq<ComponentRef>, changed: seq<ChangedFileRef>,
                     graphs: seq<Indexed>)
    returns (touched: seq<TouchedComponent>, reached: seq<Reached>, unmapped: seq<ChangedFileRef>,
        stale: seq<Repository>)
    ensures TouchedExact(touched, components, repositories, changed, graphs)
    ensures unmapped == Filter(changed, Unowned(components)) && stale == Filter(repositories, Stale(graphs))
    ensures WithoutOwner(unmapped, components, changed) && WithoutGraph(stale, repositories, graphs)
    ensures (var dependencies := SortBy(Summary(DependencyEntries(components, repositories, graphs)), DependencyLe);
             reached == SortBy(ReachedBy(dependencies, Ids(touched)), ReachedLe))
    ensures SortedBy(reached, ReachedLe) && MostReachedFirst(reached)
  {
    var index := new ComponentIndex(components);
    stale := Filter(repositories, Stale(graphs));
    var files;
    files, unmapped := TouchComponents(index, changed);
    var symbols := ListSymbols(index, repositories, changed, graphs, files.Keys);
    var dependencies := BuildDependencies(repositories, components, graphs);
    var found := Reach(dependencies, files.Keys);
    touched := SortTouched(files, symbols);
    forall t | t in touched
      ensures FirstTenOf(t.changedSymbols, TouchedSymbols(components, repositories, changed, graphs, t.componentId))
    {
      FirstTen(components, repositories, changed, graphs, t.componentId, t.changedSymbols);
    }
    UnmappedAre(components, changed);
    StaleAre(repositories, graphs);
    ReachedOrder();
    SortSorts(found, ReachedLe);
    reached := SortBy(found, ReachedLe);
    SortedReached(reached);
  }
}
