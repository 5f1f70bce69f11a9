// Building a graph from parsed files (code_graph/graph.py).
module GraphBuild {
  import opened Lists
  import opened CodeGraph

  datatype RawCall = RawCall(callerSymbolId: Option<string>, calleeName: string)
  datatype ParsedSymbols = ParsedSymbols(
    path: string, symbols: seq<Symbol>, calls: seq<RawCall>, imports: seq<string>)

  type Aliases = seq<(string, seq<string>)>

  // What the builders take from elsewhere: the tree-sitter parser (None when it
  // raises), the import resolver, the tsconfig reader and the content hash.
  datatype Indexer = Indexer(
    parse: (string, string) -> Option<ParsedSymbols>,
    resolve: (string, string, set<string>, Aliases) -> Option<string>,
    loadAliases: string -> Aliases,
    hash: string -> string)

  // ---- Test paths -------------------------------------------------------

  function LowerChar(c: char): (r: char)
    ensures if 'A' <= c <= 'Z' then r as int - 'a' as int == c as int - 'A' as int else r == c
  {
    if 'A' <= c <= 'Z' then (c as int + 32) as char else c
  }

  function Lower(text: string): string {
    seq(|text|, i requires 0 <= i < |text| => LowerChar(text[i]))
  }

  predicate Contains(text: string, marker: string) {
    exists i | 0 <= i <= |text| :: marker <= text[i..]
  }

  function BaseName(path: string): (name: string)
    ensures '/' !in name
    ensures exists dir :: path == dir + name && (dir == "" || dir[|dir| - 1] == '/')
  {
    assert path == path + "";
    assert path != [] ==> path == path[..|path| - 1] + [path[|path| - 1]];
    if path == [] then []
    else if path[|path| - 1] == '/' then []
    else BaseName(path[..|path| - 1]) + [path[|path| - 1]]
  }

  predicate IsTestPath(path: string) {
    var lower := Lower(path);
    var name := BaseName(lower);
    || Contains(lower, "/test/") || Contains(lower, "/tests/") || Contains(lower, "/__tests__/")
    || Contains(name, ".test.") || Contains(name, ".spec.") || Contains(name, "_test.") || Contains(name, "test_")
  }

  // ---- The graph of a list of parsed files ------------------------------

  // What name and import resolution look at.
  datatype Scope = Scope(known: set<string>, aliases: Aliases, named: seq<Symbol>)

  function FileSymbol(path: string, contentHash: string): Symbol {
    Symbol(path, FileKind, path, BaseName(path), 1, 1, path, "", None, contentHash)
  }

  function HashFor(hashes: map<string, string>, path: string): string {
    if path in hashes then hashes[path] else ""
  }

  function NodesOf(p: ParsedSymbols, hashes: map<string, string>): seq<Symbol> {
    [FileSymbol(p.path, HashFor(hashes, p.path))] + p.symbols
  }

  function DefinesEdge(path: string): Symbol -> seq<Edge> {
    (s: Symbol) => [Edge(path, s.id, Defines)]
  }

  function DefinesEdges(p: ParsedSymbols): seq<Edge> {
    FlatMap(p.symbols, DefinesEdge(p.path))
  }

  function ImportTarget(ix: Indexer, p: ParsedSymbols, scope: Scope, raw: string): seq<string> {
    match ix.resolve(raw, p.path, scope.known, scope.aliases)
    case Some(target) => if target == "" then [] else [target]
    case None => []
  }

  function TargetIn(ix: Indexer, p: ParsedSymbols, scope: Scope): string -> seq<string> {
    (raw: string) => ImportTarget(ix, p, scope, raw)
  }

  function ImportTargets(ix: Indexer, p: ParsedSymbols, scope: Scope): seq<string> {
    FlatMap(p.imports, TargetIn(ix, p, scope))
  }

  function ImportsEdge(path: string): string -> seq<Edge> {
    (target: string) => [Edge(path, target, Imports)]
  }

  function ImportEdges(ix: Indexer, p: ParsedSymbols, scope: Scope): seq<Edge> {
    FlatMap(ImportTargets(ix, p, scope), ImportsEdge(p.path))
  }

  function IsNamed(name: string): Symbol -> bool {
    (s: Symbol) => s.name == name
  }

  predicate IsNoFile(s: Symbol) {
    s.kind != FileKind
  }

  function IsCandidate(name: string): Symbol -> bool {
    (s: Symbol) => s.name == name && IsNoFile(s)
  }

  function IsWithin(paths: set<string>): Symbol -> bool {
    (s: Symbol) => s.path in paths
  }

  function CandidatesFor(named: seq<Symbol>, name: string): seq<Symbol> {
    Filter(named, IsCandidate(name))
  }

  function ResolveCallee(candidates: seq<Symbol>, preferred: set<string>): Option<Symbol> {
    var local := Filter(candidates, IsWithin(preferred));
    if candidates == [] then None
    else if |local| == 1 then Some(local[0])
    else if local == [] && |candidates| == 1 then Some(candidates[0])
    else None
  }

  // call.caller_symbol_id or parsed.path
  function CallerOf(p: ParsedSymbols, call: RawCall): string {
    if call.callerSymbolId.GetOr("") != "" then call.callerSymbolId.value else p.path
  }

  function CallEdges(p: ParsedSymbols, scope: Scope, preferred: set<string>, call: RawCall): seq<Edge> {
    match ResolveCallee(CandidatesFor(scope.named, call.calleeName), preferred)
    case Some(callee) =>
      [Edge(CallerOf(p, call), callee.id, References)]
    case None => []
  }

  function EdgesOfCall(p: ParsedSymbols, scope: Scope, preferred: set<string>): RawCall -> seq<Edge> {
    (call: RawCall) => CallEdges(p, scope, preferred, call)
  }

  function ReferenceEdges(p: ParsedSymbols, scope: Scope, preferred: set<string>): seq<Edge> {
    FlatMap(p.calls, EdgesOfCall(p, scope, preferred))
  }

  // resolved_imports_by_file: a dictionary, so the last entry with this path counts.
  function PreferredFiles(ix: Indexer, parsed: seq<ParsedSymbols>, scope: Scope, path: string): set<string> {
    if parsed == [] then {}
    else
      var last := parsed[|parsed| - 1];
      if last.path == path then set t | t in ImportTargets(ix, last, scope)
      else PreferredFiles(ix, parsed[..|parsed| - 1], scope, path)
  }

  function SymbolsOf(p: ParsedSymbols): seq<Symbol> {
    p.symbols
  }

  function ScopeOf(parsed: seq<ParsedSymbols>, aliases: Aliases, reused: seq<Symbol>): Scope {
    Scope((set p | p in parsed :: p.path) + (set s | s in reused :: s.path), aliases,
          reused + FlatMap(parsed, SymbolsOf))
  }

  function ImportsIn(ix: Indexer, scope: Scope): ParsedSymbols -> seq<Edge> {
    (p: ParsedSymbols) => ImportEdges(ix, p, scope)
  }

  function ReferencesIn(ix: Indexer, parsed: seq<ParsedSymbols>, scope: Scope): ParsedSymbols -> seq<Edge> {
    (p: ParsedSymbols) => ReferenceEdges(p, scope, PreferredFiles(ix, parsed, scope, p.path))
  }

  function EdgesOf(ix: Indexer, parsed: seq<ParsedSymbols>, scope: Scope): seq<Edge> {
    FlatMap(parsed, DefinesEdges)
    + FlatMap(parsed, ImportsIn(ix, scope))
    + FlatMap(parsed, ReferencesIn(ix, parsed, scope))
  }

  function NodesWith(hashes: map<string, string>): ParsedSymbols -> seq<Symbol> {
    (p: ParsedSymbols) => NodesOf(p, hashes)
  }

  function GraphOf(ix: Indexer, parsed: seq<ParsedSymbols>, aliases: Aliases, hashes: map<string, string>,
                   reused: seq<Symbol>): Graph
  {
    Graph(PutAll(PutAll([], reused), FlatMap(parsed, NodesWith(hashes))),
          EdgesOf(ix, parsed, ScopeOf(parsed, aliases, reused)), [])
  }

  // ---- What the edges say --------------------------------------------------------------

  // An import of the file at this path leads to the target.
  predicate LeadsTo(ix: Indexer, scope: Scope, path: string, raw: string, target: string) {
    target != "" && ix.resolve(raw, path, scope.known, scope.aliases) == Some(target)
  }

  // Of several parsed files with one path the last one counts.
  predicate FileImports(ix: Indexer, scope: Scope, parsed: seq<ParsedSymbols>, path: string, target: string) {
    exists i | 0 <= i < |parsed| :: LastAt(parsed, i, path) && ImportsIt(ix, scope, parsed[i], target)
  }

  predicate LastAt(parsed: seq<ParsedSymbols>, i: nat, path: string) {
    i < |parsed| && parsed[i].path == path && forall j | i < j < |parsed| :: parsed[j].path != path
  }

  predicate ImportsIt(ix: Indexer, scope: Scope, p: ParsedSymbols, target: string) {
    exists raw | raw in p.imports :: LeadsTo(ix, scope, p.path, raw, target)
  }

  // The symbols a name may mean, and those of them in a file the caller's file imports.
  function MayMean(name: string): Symbol -> bool {
    (s: Symbol) => s.kind != FileKind && s.name == name
  }

  function MayMeanLocally(ix: Indexer, scope: Scope, parsed: seq<ParsedSymbols>, path: string,
                          name: string): Symbol -> bool
  {
    (s: Symbol) => s.kind != FileKind && s.name == name && FileImports(ix, scope, parsed, path, s.path)
  }

  // A call means the only such symbol in an imported file; if there is none in any imported
  // file, it means the only one there is.
  predicate Means(ix: Indexer, scope: Scope, parsed: seq<ParsedSymbols>, path: string, name: string, s: Symbol) {
    && s in scope.named && s.kind != FileKind && s.name == name
    && var imported := Count(scope.named, MayMeanLocally(ix, scope, parsed, path, name));
       if imported == 0 then Count(scope.named, MayMean(name)) == 1
       else imported == 1 && FileImports(ix, scope, parsed, path, s.path)
  }

  predicate MeansId(ix: Indexer, scope: Scope, parsed: seq<ParsedSymbols>, path: string, name: string, id: string) {
    exists s | s in scope.named :: s.id == id && Means(ix, scope, parsed, path, name, s)
  }

  // This call of p makes the edge e.
  predicate CallMakes(ix: Indexer, scope: Scope, parsed: seq<ParsedSymbols>, p: ParsedSymbols, e: Edge, call: RawCall) {
    && e.fromId == (match call.callerSymbolId
                    case None => p.path
                    case Some(id) => if id == "" then p.path else id)
    && MeansId(ix, scope, parsed, p.path, call.calleeName, e.toId)
  }

  function CallsMaking(ix: Indexer, scope: Scope, parsed: seq<ParsedSymbols>, p: ParsedSymbols,
                       e: Edge): RawCall -> bool
  {
    (call: RawCall) => CallMakes(ix, scope, parsed, p, e, call)
  }

  function ImportsMaking(ix: Indexer, scope: Scope, p: ParsedSymbols, e: Edge): string -> bool {
    (raw: string) => e.fromId == p.path && LeadsTo(ix, scope, p.path, raw, e.toId)
  }

  function SymbolsMaking(p: ParsedSymbols, e: Edge): Symbol -> bool {
    (s: Symbol) => e.fromId == p.path && e.toId == s.id
  }

  // How often one file makes the edge: once for each symbol it defines, each import that
  // leads to the target, each call that means it.
  function TimesMade(ix: Indexer, scope: Scope, parsed: seq<ParsedSymbols>, p: ParsedSymbols, e: Edge): nat {
    match e.kind
    case Defines => Count(p.symbols, SymbolsMaking(p, e))
    case Imports => Count(p.imports, ImportsMaking(ix, scope, p, e))
    case References => Count(p.calls, CallsMaking(ix, scope, parsed, p, e))
    case Tests => 0
  }

  function MadeBy(ix: Indexer, scope: Scope, parsed: seq<ParsedSymbols>, e: Edge): ParsedSymbols -> nat {
    (p: ParsedSymbols) => TimesMade(ix, scope, parsed, p, e)
  }

  ghost predicate MadeAsOften(ix: Indexer, scope: Scope, parsed: seq<ParsedSymbols>, edges: seq<Edge>) {
    forall e: Edge :: multiset(edges)[e] == Sum(parsed, MadeBy(ix, scope, parsed, e))
  }

  lemma TargetsMember(ix: Indexer, scope: Scope, p: ParsedSymbols, t: string)
    ensures t in ImportTargets(ix, p, scope) <==> ImportsIt(ix, scope, p, t)
  {
    FlatMapMember(p.imports, TargetIn(ix, p, scope), t);
    if raw :| raw in p.imports && LeadsTo(ix, scope, p.path, raw, t) {
      assert t in TargetIn(ix, p, scope)(raw);
    }
    if raw :| raw in p.imports && t in TargetIn(ix, p, scope)(raw) {
      assert LeadsTo(ix, scope, p.path, raw, t);
    }
  }

  lemma {:induction false} PreferredMember(ix: Indexer, scope: Scope, parsed: seq<ParsedSymbols>, path: string,
                                           t: string)
    ensures t in PreferredFiles(ix, parsed, scope, path) <==> FileImports(ix, scope, parsed, path, t)
  {
    if parsed != [] {
      var init, last := parsed[..|parsed| - 1], parsed[|parsed| - 1];
      if last.path == path {
        TargetsMember(ix, scope, last, t);
        assert LastAt(parsed, |parsed| - 1, path);
      } else {
        PreferredMember(ix, scope, init, path, t);
        assert forall i | 0 <= i < |init| :: LastAt(init, i, path) <==> LastAt(parsed, i, path);
      }
    }
  }

  lemma LocalOnes(ix: Indexer, scope: Scope, parsed: seq<ParsedSymbols>, path: string, name: string)
    ensures (var preferred := PreferredFiles(ix, parsed, scope, path);
             Filter(CandidatesFor(scope.named, name), IsWithin(preferred))
             == Filter(scope.named, MayMeanLocally(ix, scope, parsed, path, name)))
  {
    var preferred := PreferredFiles(ix, parsed, scope, path);
    forall s: Symbol
      ensures MayMeanLocally(ix, scope, parsed, path, name)(s) <==> IsCandidate(name)(s) && IsWithin(preferred)(s)
    {
      PreferredMember(ix, scope, parsed, path, s.path);
    }
    FilterTwice(scope.named, IsCandidate(name), IsWithin(preferred), MayMeanLocally(ix, scope, parsed, path, name));
  }

  lemma OneMember<T>(xs: seq<T>, x: T)
    requires |xs| == 1
    ensures x in xs <==> x == xs[0]
  {
  }

  lemma ResolvedMeans(ix: Indexer, scope: Scope, parsed: seq<ParsedSymbols>, path: string, name: string, s: Symbol)
    ensures ResolveCallee(CandidatesFor(scope.named, name), PreferredFiles(ix, parsed, scope, path)) == Some(s)
       <==> Means(ix, scope, parsed, path, name, s)
  {
    var all, near := MayMean(name), MayMeanLocally(ix, scope, parsed, path, name);
    FilterSame(scope.named, IsCandidate(name), all);
    LocalOnes(ix, scope, parsed, path, name);
    FilterMember(scope.named, all, s);
    FilterMember(scope.named, near, s);
    if |Filter(scope.named, all)| == 1 { OneMember(Filter(scope.named, all), s); }
    if |Filter(scope.named, near)| == 1 { OneMember(Filter(scope.named, near), s); }
    if Filter(scope.named, near) != [] {
      var t := Filter(scope.named, near)[0];
      FilterMember(scope.named, near, t);
      FilterMember(scope.named, all, t);
    }
  }

  lemma CallMade(ix: Indexer, scope: Scope, parsed: seq<ParsedSymbols>, p: ParsedSymbols, e: Edge, call: RawCall)
    requires e.kind == References
    ensures multiset(CallEdges(p, scope, PreferredFiles(ix, parsed, scope, p.path), call))[e]
         == if CallMakes(ix, scope, parsed, p, e, call) then 1 else 0
  {
    var callee :=
      ResolveCallee(CandidatesFor(scope.named, call.calleeName), PreferredFiles(ix, parsed, scope, p.path));
    if callee.Some? {
      ResolvedMeans(ix, scope, parsed, p.path, call.calleeName, callee.value);
    }
    if s :| s in scope.named && s.id == e.toId && Means(ix, scope, parsed, p.path, call.calleeName, s) {
      ResolvedMeans(ix, scope, parsed, p.path, call.calleeName, s);
    }
  }

  lemma CallsMade(ix: Indexer, scope: Scope, parsed: seq<ParsedSymbols>, p: ParsedSymbols, e: Edge)
    ensures multiset(ReferencesIn(ix, parsed, scope)(p))[e]
         == if e.kind == References then Count(p.calls, CallsMaking(ix, scope, parsed, p, e)) else 0
  {
    var preferred := PreferredFiles(ix, parsed, scope, p.path);
    if e.kind == References {
      forall call | call in p.calls
        ensures multiset(EdgesOfCall(p, scope, preferred)(call))[e]
             == if CallsMaking(ix, scope, parsed, p, e)(call) then 1 else 0
      {
        CallMade(ix, scope, parsed, p, e, call);
      }
      FlatMapCount(p.calls, EdgesOfCall(p, scope, preferred), e, CallsMaking(ix, scope, parsed, p, e));
    } else {
      FlatMapCountNone(p.calls, EdgesOfCall(p, scope, preferred), e);
    }
  }

  function ImportsOfRaw(ix: Indexer, scope: Scope, p: ParsedSymbols): string -> seq<Edge> {
    (raw: string) => FlatMap(TargetIn(ix, p, scope)(raw), ImportsEdge(p.path))
  }

  lemma ImportsMade(ix: Indexer, scope: Scope, p: ParsedSymbols, e: Edge)
    ensures multiset(ImportEdges(ix, p, scope))[e]
         == if e.kind == Imports then Count(p.imports, ImportsMaking(ix, scope, p, e)) else 0
  {
    FlatMapTwice(p.imports, TargetIn(ix, p, scope), ImportsEdge(p.path), ImportsOfRaw(ix, scope, p));
    if e.kind == Imports {
      forall raw | raw in p.imports
        ensures multiset(ImportsOfRaw(ix, scope, p)(raw))[e] == if ImportsMaking(ix, scope, p, e)(raw) then 1 else 0
      {
        if ImportTarget(ix, p, scope, raw) != [] {
          FlatMapOne(ImportTarget(ix, p, scope, raw)[0], ImportsEdge(p.path));
        }
      }
      FlatMapCount(p.imports, ImportsOfRaw(ix, scope, p), e, ImportsMaking(ix, scope, p, e));
    } else {
      FlatMapCountNone(ImportTargets(ix, p, scope), ImportsEdge(p.path), e);
    }
  }

  lemma DefinesMade(p: ParsedSymbols, e: Edge)
    ensures multiset(DefinesEdges(p))[e] == if e.kind == Defines then Count(p.symbols, SymbolsMaking(p, e)) else 0
  {
    if e.kind == Defines {
      FlatMapCount(p.symbols, DefinesEdge(p.path), e, SymbolsMaking(p, e));
    } else {
      FlatMapCountNone(p.symbols, DefinesEdge(p.path), e);
    }
  }

  function MadeOfKind(ix: Indexer, scope: Scope, parsed: seq<ParsedSymbols>, e: Edge,
                      kind: EdgeKind): ParsedSymbols -> nat
  {
    (p: ParsedSymbols) => if e.kind == kind then TimesMade(ix, scope, parsed, p, e) else 0
  }

  // These are the edges of one kind, as often as the files say.
  ghost predicate MadeOfKindAsOften(ix: Indexer, scope: Scope, parsed: seq<ParsedSymbols>, edges: seq<Edge>,
                                    kind: EdgeKind)
  {
    forall e: Edge :: multiset(edges)[e] == Sum(parsed, MadeOfKind(ix, scope, parsed, e, kind))
  }

  lemma DefinesPassMade(ix: Indexer, scope: Scope, parsed: seq<ParsedSymbols>)
    ensures MadeOfKindAsOften(ix, scope, parsed, FlatMap(parsed, DefinesEdges), Defines)
  {
    forall e: Edge
      ensures multiset(FlatMap(parsed, DefinesEdges))[e] == Sum(parsed, MadeOfKind(ix, scope, parsed, e, Defines))
    {
      forall p | p in parsed ensures multiset(DefinesEdges(p))[e] == MadeOfKind(ix, scope, parsed, e, Defines)(p) {
        DefinesMade(p, e);
      }
      FlatMapSum(parsed, DefinesEdges, e, MadeOfKind(ix, scope, parsed, e, Defines));
    }
  }

  lemma ImportPassMade(ix: Indexer, scope: Scope, parsed: seq<ParsedSymbols>)
    ensures MadeOfKindAsOften(ix, scope, parsed, FlatMap(parsed, ImportsIn(ix, scope)), Imports)
  {
    var importsOf := ImportsIn(ix, scope);
    forall e: Edge
      ensures multiset(FlatMap(parsed, importsOf))[e] == Sum(parsed, MadeOfKind(ix, scope, parsed, e, Imports))
    {
      forall p | p in parsed ensures multiset(importsOf(p))[e] == MadeOfKind(ix, scope, parsed, e, Imports)(p) {
        ImportsMade(ix, scope, p, e);
        assert importsOf(p) == ImportEdges(ix, p, scope);
      }
      FlatMapSum(parsed, importsOf, e, MadeOfKind(ix, scope, parsed, e, Imports));
    }
  }

  lemma ReferencePassMade(ix: Indexer, scope: Scope, parsed: seq<ParsedSymbols>)
    ensures MadeOfKindAsOften(ix, scope, parsed, FlatMap(parsed, ReferencesIn(ix, parsed, scope)), References)
  {
    var refsOf := ReferencesIn(ix, parsed, scope);
    forall e: Edge
      ensures multiset(FlatMap(parsed, refsOf))[e] == Sum(parsed, MadeOfKind(ix, scope, parsed, e, References))
    {
      forall p | p in parsed ensures multiset(refsOf(p))[e] == MadeOfKind(ix, scope, parsed, e, References)(p) {
        CallsMade(ix, scope, parsed, p, e);
      }
      FlatMapSum(parsed, refsOf, e, MadeOfKind(ix, scope, parsed, e, References));
    }
  }

  // The edges of the three passes together, each as often as the files say.
  lemma EdgesMade(ix: Indexer, scope: Scope, parsed: seq<ParsedSymbols>, defines: seq<Edge>, imports: seq<Edge>,
                  references: seq<Edge>)
    requires MadeOfKindAsOften(ix, scope, parsed, defines, Defines)
    requires MadeOfKindAsOften(ix, scope, parsed, imports, Imports)
    requires MadeOfKindAsOften(ix, scope, parsed, references, References)
    ensures MadeAsOften(ix, scope, parsed, defines + imports + references)
  {
    forall e: Edge
      ensures multiset(defines + imports + references)[e] == Sum(parsed, MadeBy(ix, scope, parsed, e))
    {
      assert multiset(defines)[e] == Sum(parsed, MadeOfKind(ix, scope, parsed, e, Defines));
      assert multiset(imports)[e] == Sum(parsed, MadeOfKind(ix, scope, parsed, e, Imports));
      assert multiset(references)[e] == Sum(parsed, MadeOfKind(ix, scope, parsed, e, References));
      MadeOnce(ix, scope, parsed, e, parsed);
    }
  }

  lemma {:induction false} MadeOnce(ix: Indexer, scope: Scope, parsed: seq<ParsedSymbols>, e: Edge,
                                    some: seq<ParsedSymbols>)
    ensures Sum(some, MadeOfKind(ix, scope, parsed, e, Defines))
          + Sum(some, MadeOfKind(ix, scope, parsed, e, Imports))
          + Sum(some, MadeOfKind(ix, scope, parsed, e, References))
         == Sum(some, MadeBy(ix, scope, parsed, e))
  {
    if some != [] {
      MadeOnce(ix, scope, parsed, e, some[..|some| - 1]);
    }
  }

  // The first pass of build_graph: nodes, the name index and the `defines` edges.
  method DefinePass(parsed: seq<ParsedSymbols>, hashes: map<string, string>, reused: seq<Symbol>)
    returns (nodes: seq<Symbol>, byName: map<string, seq<Symbol>>, edges: seq<Edge>)
    ensures nodes == PutAll(PutAll([], reused), FlatMap(parsed, NodesWith(hashes)))
    ensures byName == AddAllNamed(AddAllNamed(map[], reused), FlatMap(parsed, SymbolsOf))
    ensures edges == FlatMap(parsed, DefinesEdges)
  {
    nodes, byName, edges := [], map[], [];
    for i := 0 to |reused|
      invariant PutAll(nodes, reused[i..]) == PutAll([], reused)
      invariant AddAllNamed(byName, reused[i..]) == AddAllNamed(map[], reused)
    {
      assert reused[i..][1..] == reused[i + 1..];
      nodes := Put(nodes, reused[i]);
      byName := AddNamed(byName, reused[i]);
    }
    ghost var nodesOf := NodesWith(hashes);
    ghost var symbolsOf := SymbolsOf;
    ghost var definesOf := DefinesEdges;
    ghost var nodes0, byName0 := nodes, byName;
    for i := 0 to |parsed|
      invariant nodes == PutAll(nodes0, FlatMap(parsed[..i], nodesOf))
      invariant byName == AddAllNamed(byName0, FlatMap(parsed[..i], symbolsOf))
      invariant edges == FlatMap(parsed[..i], definesOf)
    {
      FlatMapTake(parsed, nodesOf, i);
      FlatMapTake(parsed, symbolsOf, i);
      FlatMapTake(parsed, definesOf, i);
      PutAllAppend(nodes0, FlatMap(parsed[..i], nodesOf), nodesOf(parsed[i]));
      AddAllNamedAppend(byName0, FlatMap(parsed[..i], symbolsOf), symbolsOf(parsed[i]));
      var defined;
      nodes, byName, defined := DefineFile(parsed[i], hashes, nodes, byName);
      edges := edges + defined;
    }
    assert parsed[..|parsed|] == parsed;
  }

  method DefineFile(p: ParsedSymbols, hashes: map<string, string>, nodes0: seq<Symbol>,
                    byName0: map<string, seq<Symbol>>)
    returns (nodes: seq<Symbol>, byName: map<string, seq<Symbol>>, edges: seq<Edge>)
    ensures nodes == PutAll(nodes0, NodesOf(p, hashes))
    ensures byName == AddAllNamed(byName0, p.symbols)
    ensures edges == DefinesEdges(p)
  {
    var file := FileSymbol(p.path, HashFor(hashes, p.path));
    nodes, byName, edges := Put(nodes0, file), byName0, [];
    DefineFirst(p, hashes, nodes0);
    for j := 0 to |p.symbols|
      invariant PutAll(nodes, p.symbols[j..]) == PutAll(nodes0, NodesOf(p, hashes))
      invariant AddAllNamed(byName, p.symbols[j..]) == AddAllNamed(byName0, p.symbols)
      invariant edges == FlatMap(p.symbols[..j], DefinesEdge(p.path))
    {
      DefineNext(p, nodes, byName, edges, j);
      nodes := Put(nodes, p.symbols[j]);
      byName := AddNamed(byName, p.symbols[j]);
      edges := edges + [Edge(file.id, p.symbols[j].id, Defines)];
    }
    assert p.symbols[..|p.symbols|] == p.symbols;
  }

  lemma DefineFirst(p: ParsedSymbols, hashes: map<string, string>, nodes: seq<Symbol>)
    ensures PutAll(Put(nodes, FileSymbol(p.path, HashFor(hashes, p.path))), p.symbols[0..])
        == PutAll(nodes, NodesOf(p, hashes))
    ensures p.symbols[0..] == p.symbols
  {
    assert NodesOf(p, hashes)[1..] == p.symbols;
  }

  lemma DefineNext(p: ParsedSymbols, nodes: seq<Symbol>, byName: map<string, seq<Symbol>>, edges: seq<Edge>, j: nat)
    requires j < |p.symbols| && edges == FlatMap(p.symbols[..j], DefinesEdge(p.path))
    ensures PutAll(nodes, p.symbols[j..]) == PutAll(Put(nodes, p.symbols[j]), p.symbols[j + 1..])
    ensures AddAllNamed(byName, p.symbols[j..]) == AddAllNamed(AddNamed(byName, p.symbols[j]), p.symbols[j + 1..])
    ensures edges + [Edge(p.path, p.symbols[j].id, Defines)] == FlatMap(p.symbols[..j + 1], DefinesEdge(p.path))
  {
    assert p.symbols[j..][1..] == p.symbols[j + 1..];
    FlatMapTake(p.symbols, DefinesEdge(p.path), j);
  }

  // The second pass: `imports` edges, and for each path the files it imports.
  method ImportPass(ix: Indexer, parsed: seq<ParsedSymbols>, scope: Scope)
    returns (edges: seq<Edge>, resolvedByFile: map<string, set<string>>)
    ensures edges == FlatMap(parsed, ImportsIn(ix, scope))
    ensures MadeOfKindAsOften(ix, scope, parsed, edges, Imports)
    ensures forall p | p in parsed ::
        p.path in resolvedByFile && resolvedByFile[p.path] == PreferredFiles(ix, parsed, scope, p.path)
  {
    edges, resolvedByFile := [], map[];
    ghost var importsOf := ImportsIn(ix, scope);
    for i := 0 to |parsed|
      invariant edges == FlatMap(parsed[..i], importsOf)
      invariant forall p | p in parsed[..i] :: p.path in resolvedByFile
      invariant forall path | path in resolvedByFile ::
          resolvedByFile[path] == PreferredFiles(ix, parsed[..i], scope, path)
    {
      assert parsed[..i + 1][..i] == parsed[..i];
      var added, resolved := ImportFile(ix, parsed[i], scope);
      edges := edges + added;
      resolvedByFile := resolvedByFile[parsed[i].path := resolved];
    }
    assert parsed[..|parsed|] == parsed;
    ImportPassMade(ix, scope, parsed);
  }

  method ImportFile(ix: Indexer, p: ParsedSymbols, scope: Scope) returns (edges: seq<Edge>, resolved: set<string>)
    ensures edges == ImportEdges(ix, p, scope)
    ensures resolved == set t | t in ImportTargets(ix, p, scope)
  {
    edges, resolved := [], {};
    ghost var targets: seq<string> := [];
    for j := 0 to |p.imports|
      invariant targets == FlatMap(p.imports[..j], TargetIn(ix, p, scope))
      invariant Resolved(p, targets, edges, resolved)
    {
      FlatMapTake(p.imports, TargetIn(ix, p, scope), j);
      var t := ix.resolve(p.imports[j], p.path, scope.known, scope.aliases);
      if t.Some? && t.value != "" {
        ResolvedSnoc(p, targets, edges, resolved, t.value);
        targets := targets + [t.value];
        resolved := resolved + {t.value};
        edges := edges + [Edge(p.path, t.value, Imports)];
      }
    }
    assert p.imports[..|p.imports|] == p.imports;
  }

  ghost predicate Resolved(p: ParsedSymbols, targets: seq<string>, edges: seq<Edge>, resolved: set<string>) {
    edges == FlatMap(targets, ImportsEdge(p.path)) && resolved == set t | t in targets
  }

  lemma ResolvedSnoc(p: ParsedSymbols, targets: seq<string>, edges: seq<Edge>, resolved: set<string>, t: string)
    requires Resolved(p, targets, edges, resolved)
    ensures Resolved(p, targets + [t], edges + [Edge(p.path, t, Imports)], resolved + {t})
  {
    FlatMapSnoc(targets, ImportsEdge(p.path), t);
  }

  // The third pass: `references` edges.
  method ReferencePass(ix: Indexer, parsed: seq<ParsedSymbols>, scope: Scope, byName: map<string, seq<Symbol>>,
                       resolvedByFile: map<string, set<string>>) returns (edges: seq<Edge>)
    requires Grouped(byName, scope.named)
    requires forall p | p in parsed ::
        p.path in resolvedByFile && resolvedByFile[p.path] == PreferredFiles(ix, parsed, scope, p.path)
    ensures edges == FlatMap(parsed,
        ReferencesIn(ix, parsed, scope))
    ensures MadeOfKindAsOften(ix, scope, parsed, edges, References)
  {
    edges := [];
    ghost var refsOf := ReferencesIn(ix, parsed, scope);
    for i := 0 to |parsed|
      invariant edges == FlatMap(parsed[..i], refsOf)
    {
      assert parsed[..i + 1][..i] == parsed[..i];
      var added := ReferenceFile(parsed[i], scope, byName, resolvedByFile[parsed[i].path]);
      edges := edges + added;
    }
    assert parsed[..|parsed|] == parsed;
    ReferencePassMade(ix, scope, parsed);
  }

  method ReferenceFile(p: ParsedSymbols, ghost scope: Scope, byName: map<string, seq<Symbol>>, preferred: set<string>)
    returns (edges: seq<Edge>)
    requires Grouped(byName, scope.named)
    ensures edges == ReferenceEdges(p, scope, preferred)
  {
    edges := [];
    ghost var callEdges := EdgesOfCall(p, scope, preferred);
    for j := 0 to |p.calls|
      invariant edges == FlatMap(p.calls[..j], callEdges)
    {
      var call := p.calls[j];
      FlatMapTake(p.calls, callEdges, j);
      GroupedCandidates(byName, scope.named, call.calleeName);
      var group := Group(byName, call.calleeName);
      var callee := ResolveCallee(Filter(group, IsNoFile), preferred);
      if callee.Some? {
        var callerId := CallerOf(p, call);
        edges := edges + [Edge(callerId, callee.value.id, References)];
      }
    }
    assert p.calls[..|p.calls|] == p.calls;
  }

  // build_graph
  method BuildGraph(ix: Indexer, parsed: seq<ParsedSymbols>, aliases: Aliases, hashes: map<string, string>,
                    reused: seq<Symbol>) returns (g: Graph)
    ensures g == GraphOf(ix, parsed, aliases, hashes, reused)
    ensures MadeAsOften(ix, Scope((set p | p in parsed :: p.path) + (set s | s in reused :: s.path), aliases,
                                  reused + FlatMap(parsed, SymbolsOf)), parsed, g.edges)
  {
    var scope := ScopeOf(parsed, aliases, reused);
    var nodes, byName, defines := DefinePass(parsed, hashes, reused);
    NameIndexGrouped(reused, FlatMap(parsed, SymbolsOf));
    var imports, resolvedByFile := ImportPass(ix, parsed, scope);
    var references := ReferencePass(ix, parsed, scope, byName, resolvedByFile);
    g := Graph(nodes, defines + imports + references, []);
    DefinesPassMade(ix, scope, parsed);
    EdgesMade(ix, scope, parsed, defines, imports, references);
  }

  // symbol_by_name lists, under each name, the symbols seen so far with that name.
  ghost predicate Grouped(byName: map<string, seq<Symbol>>, named: seq<Symbol>) {
    forall name: string :: IndexedAs(byName, named, name)
  }

  ghost predicate IndexedAs(byName: map<string, seq<Symbol>>, named: seq<Symbol>, name: string) {
    Group(byName, name) == Filter(named, IsNamed(name))
  }

  // symbol_by_name.setdefault(symbol.name, []).append(symbol)
  function AddNamed(byName: map<string, seq<Symbol>>, s: Symbol): map<string, seq<Symbol>> {
    byName[s.name := (if s.name in byName then byName[s.name] else []) + [s]]
  }

  function AddAllNamed(byName: map<string, seq<Symbol>>, symbols: seq<Symbol>): map<string, seq<Symbol>>
    decreases |symbols|
  {
    if symbols == [] then byName else AddAllNamed(AddNamed(byName, symbols[0]), symbols[1..])
  }

  lemma {:induction false} AddAllNamedAppend(byName: map<string, seq<Symbol>>, xs: seq<Symbol>, ys: seq<Symbol>)
    ensures AddAllNamed(byName, xs + ys) == AddAllNamed(AddAllNamed(byName, xs), ys)
    decreases |xs|
  {
    if xs == [] {
      assert xs + ys == ys;
    } else {
      assert (xs + ys)[1..] == xs[1..] + ys;
      AddAllNamedAppend(AddNamed(byName, xs[0]), xs[1..], ys);
    }
  }

  function Group(byName: map<string, seq<Symbol>>, name: string): seq<Symbol> {
    if name in byName then byName[name] else []
  }

  lemma {:induction false} AddAllNamedGroup(byName: map<string, seq<Symbol>>, symbols: seq<Symbol>, name: string)
    ensures GrownBy(byName, AddAllNamed(byName, symbols), symbols, name)
    decreases |symbols|
  {
    if symbols != [] {
      AddAllNamedGroup(AddNamed(byName, symbols[0]), symbols[1..], name);
      GrownByOneMore(byName, symbols[0], symbols[1..], AddAllNamed(byName, symbols), name);
      assert symbols == [symbols[0]] + symbols[1..];
    }
  }

  // The entry of a name in `after` is that in `before`, followed by the symbols so named.
  ghost predicate GrownBy(before: map<string, seq<Symbol>>, after: map<string, seq<Symbol>>, symbols: seq<Symbol>,
                          name: string)
  {
    Group(after, name) == Group(before, name) + Filter(symbols, IsNamed(name))
  }

  lemma GrownByOneMore(before: map<string, seq<Symbol>>, s: Symbol, rest: seq<Symbol>, after: map<string, seq<Symbol>>,
                       name: string)
    requires GrownBy(AddNamed(before, s), after, rest, name)
    ensures GrownBy(before, after, [s] + rest, name)
  {
    var more := if s.name == name then [s] else [];
    FilterAppend([s], rest, IsNamed(name));
    FilterOne(s, IsNamed(name));
    GroupAdded(before, s, name);
    Regrouped(Group(before, name), more, Filter(rest, IsNamed(name)));
  }

  lemma GroupAdded(before: map<string, seq<Symbol>>, s: Symbol, name: string)
    ensures Group(AddNamed(before, s), name) == Group(before, name) + if s.name == name then [s] else []
  {
  }

  lemma Regrouped<T>(a: seq<T>, b: seq<T>, c: seq<T>)
    ensures (a + b) + c == a + (b + c)
  {
  }

  lemma NameIndexGrouped(reused: seq<Symbol>, symbols: seq<Symbol>)
    ensures Grouped(AddAllNamed(AddAllNamed(map[], reused), symbols), reused + symbols)
  {
    forall name ensures IndexedAs(AddAllNamed(AddAllNamed(map[], reused), symbols), reused + symbols, name) {
      var before := AddAllNamed(map[], reused);
      AddAllNamedGroup(map[], reused, name);
      AddAllNamedGroup(before, symbols, name);
      GroupsJoin(before, AddAllNamed(before, symbols), reused, symbols, name);
    }
  }

  lemma GroupsJoin(before: map<string, seq<Symbol>>, after: map<string, seq<Symbol>>, reused: seq<Symbol>,
                   symbols: seq<Symbol>, name: string)
    requires GrownBy(map[], before, reused, name) && GrownBy(before, after, symbols, name)
    ensures IndexedAs(after, reused + symbols, name)
  {
    FilterAppend(reused, symbols, IsNamed(name));
  }

  lemma {:induction false} FilterTwice<T>(xs: seq<T>, p: T -> bool, q: T -> bool, both: T -> bool)
    requires forall x :: both(x) <==> p(x) && q(x)
    ensures Filter(Filter(xs, p), q) == Filter(xs, both)
  {
    if xs != [] {
      var init, last := xs[..|xs| - 1], xs[|xs| - 1];
      FilterTwice(init, p, q, both);
      if p(last) {
        assert Filter(xs, p) == Filter(init, p) + [last];
        assert (Filter(init, p) + [last])[..|Filter(init, p)|] == Filter(init, p);
      } else {
        assert Filter(xs, p) == Filter(init, p) + [] == Filter(init, p);
      }
    }
  }

  lemma GroupedCandidates(byName: map<string, seq<Symbol>>, named: seq<Symbol>, name: string)
    requires Grouped(byName, named)
    ensures Filter(Group(byName, name), IsNoFile) == CandidatesFor(named, name)
  {
    assert IndexedAs(byName, named, name);
    FilterTwice(named, IsNamed(name), IsNoFile, IsCandidate(name));
  }

  // ---- Test edges --------------------------------------------------------

  function TestEdge(nodes: seq<Symbol>, e: Edge): seq<Edge> {
    if (e.kind == References || e.kind == Imports) && IsTestPath(SourcePath(nodes, e))
    then [Edge(e.fromId, e.toId, Tests)] else []
  }

  function TestEdgeAmong(nodes: seq<Symbol>): Edge -> seq<Edge> {
    (e: Edge) => TestEdge(nodes, e)
  }

  function WithTestEdges(g: Graph): Graph {
    Graph(g.nodes, g.edges + FlatMap(g.edges, TestEdgeAmong(g.nodes)), [])
  }

  // detect_test_edges
  method DetectTestEdges(g: Graph) returns (result: Graph)
    ensures result == WithTestEdges(g)
  {
    var testEdges: seq<Edge> := [];
    for i := 0 to |g.edges|
      invariant testEdges == FlatMap(g.edges[..i], TestEdgeAmong(g.nodes))
    {
      FlatMapTake(g.edges, TestEdgeAmong(g.nodes), i);
      var e := g.edges[i];
      if e.kind == References || e.kind == Imports {
        if IsTestPath(SourcePath(g.nodes, e)) {
          testEdges := testEdges + [Edge(e.fromId, e.toId, Tests)];
        }
      }
    }
    assert g.edges[..|g.edges|] == g.edges;
    result := Graph(g.nodes, g.edges + testEdges, []);
  }
}
