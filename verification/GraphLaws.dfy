// What a build from scratch finds, said of its files alone: its nodes, and how often it
// holds each edge (code_graph/graph.py, code_graph/incremental.py).
module GraphLaws {
  import opened Lists
  import opened CodeGraph
  import opened GraphBuild
  import opened Incremental
  import opened IncrementalNodes
  import opened IncrementalEdges
  import opened IndexLinks

  // ---- Nodes -----------------------------------------------------------------------

  ghost predicate IsFileNode(ix: Indexer, f: File, s: Symbol) {
    && s.id == f.path && s.kind == FileKind && s.path == f.path && s.line == 1 && s.endLine == 1
    && s.signature == f.path && s.body == "" && s.parentId.None? && s.contentHash == ix.hash(f.content)
    && IsLastSegment(s.name, f.path)
  }

  ghost predicate IsLastSegment(name: string, path: string) {
    '/' !in name && exists dir :: path == dir + name && (dir == "" || dir[|dir| - 1] == '/')
  }

  lemma SlashAfter(x: string, a: string, y: string, b: string)
    requires x + a == y + b && |x| < |y| && y[|y| - 1] == '/'
    ensures '/' in a
  {
    assert (x + a)[|y| - 1] == a[|y| - 1 - |x|] == '/';
  }

  lemma LastSegmentUnique(a: string, b: string, path: string)
    requires IsLastSegment(a, path) && IsLastSegment(b, path)
    ensures a == b
  {
    var x :| path == x + a && (x == "" || x[|x| - 1] == '/');
    var y :| path == y + b && (y == "" || y[|y| - 1] == '/');
    if |x| < |y| {
      SlashAfter(x, a, y, b);
      assert false;
    } else if |y| < |x| {
      SlashAfter(y, b, x, a);
      assert false;
    } else {
      assert a == path[|x|..] == b;
    }
  }

  // The symbols that parsing a file yields, and one for the file itself.
  ghost predicate ComesFrom(ix: Indexer, f: File, s: Symbol) {
    && ix.parse(f.path, f.content).Some?
    && (s in ix.parse(f.path, f.content).value.symbols || IsFileNode(ix, f, s))
  }

  lemma FileNode(ix: Indexer, f: File, s: Symbol)
    ensures IsFileNode(ix, f, s) <==> s == FileSymbol(f.path, ix.hash(f.content))
  {
    assert IsLastSegment(BaseName(f.path), f.path);
    if IsFileNode(ix, f, s) {
      LastSegmentUnique(s.name, BaseName(f.path), f.path);
    }
  }

  lemma FileGives(ix: Indexer, f: File, s: Symbol)
    ensures s in FileSymbols(ix, f) <==> ComesFrom(ix, f, s)
  {
    FileNode(ix, f, s);
  }

  // The nodes of a build are the symbols of the files that parse and a node for each of
  // those files.
  lemma NodesAreSymbols(ix: Indexer, owner: string -> string, files: seq<File>, s: Symbol)
    requires IndexerOk(ix, owner) && DistinctPaths(files)
    ensures s in FullGraph(ix, files).nodes <==> exists f :: f in files && ComesFrom(ix, f, s)
    ensures DistinctIds(FullGraph(ix, files).nodes)
  {
    FullGraphNodes(ix, owner, files);
    SameBagSameLength(FullGraph(ix, files).nodes, FullNodes(ix, files));
    FlatMapMember(files, SymbolsWith(ix), s);
    forall f ensures s in FileSymbols(ix, f) <==> ComesFrom(ix, f, s) {
      FileGives(ix, f, s);
    }
  }

  // ---- Calls -------------------------------------------------------------------------

  function ParsedPaths(ix: Indexer, files: seq<File>): set<string> {
    set f | f in files && ix.parse(f.path, f.content).Some? :: f.path
  }

  // An import leads from a file with this path to the target, among the files that parse.
  ghost predicate ImportLeads(ix: Indexer, files: seq<File>, path: string, raw: string, target: string) {
    && target != ""
    && ix.resolve(raw, path, ParsedPaths(ix, files), TsconfigPaths(ix, files)) == Some(target)
  }

  ghost predicate Reachable(ix: Indexer, files: seq<File>, p: ParsedSymbols, target: string) {
    exists raw | raw in p.imports :: ImportLeads(ix, files, p.path, raw, target)
  }

  // A symbol of the graph that is no file and has this name.
  predicate Bears(g: Graph, name: string, s: Symbol) {
    s in g.nodes && s.kind != FileKind && s.name == name
  }

  // Either s is the only bearer of the name in a file p imports, or no file p imports has
  // one and s is the only one in the build.
  ghost predicate Denotes(ix: Indexer, files: seq<File>, g: Graph, p: ParsedSymbols, name: string, s: Symbol) {
    && Bears(g, name, s)
    && if exists t :: Bears(g, name, t) && Reachable(ix, files, p, t.path)
       then Reachable(ix, files, p, s.path)
            && forall t | Bears(g, name, t) && Reachable(ix, files, p, t.path) :: t == s
       else forall t | Bears(g, name, t) :: t == s
  }

  // The call goes from its caller, or from the file where it has none, to what it denotes.
  ghost predicate CallGives(ix: Indexer, files: seq<File>, g: Graph, p: ParsedSymbols, e: Edge, call: RawCall) {
    && e.fromId == (if call.callerSymbolId.None? || call.callerSymbolId.value == "" then p.path
                  else call.callerSymbolId.value)
    && DenotesId(ix, files, g, p, call.calleeName, e.toId)
  }

  ghost predicate DenotesId(ix: Indexer, files: seq<File>, g: Graph, p: ParsedSymbols, name: string, id: string) {
    exists s: Symbol :: s.id == id && Denotes(ix, files, g, p, name, s)
  }

  ghost function CallsGiving(ix: Indexer, files: seq<File>, g: Graph, p: ParsedSymbols, e: Edge): RawCall -> bool {
    (call: RawCall) => CallGives(ix, files, g, p, e, call)
  }

  ghost function ImportsGiving(ix: Indexer, files: seq<File>, p: ParsedSymbols, e: Edge): string -> bool {
    (raw: string) => e.fromId == p.path && ImportLeads(ix, files, p.path, raw, e.toId)
  }

  // ---- The links of a build -------------------------------------------------------------

  lemma {:induction false} CountNone<T>(xs: seq<T>, q: T -> bool)
    ensures Count(xs, q) == 0 <==> forall t | t in xs :: !q(t)
  {
    if xs != [] {
      CountNone(xs[..|xs| - 1], q);
      InitLast(xs);
    }
  }

  lemma {:induction false} CountOne<T>(xs: seq<T>, q: T -> bool, x: T)
    requires x in xs && q(x) && forall y | q(y) :: multiset(xs)[y] <= 1
    ensures Count(xs, q) == 1 <==> forall t | t in xs && q(t) :: t == x
  {
    var init, last := xs[..|xs| - 1], xs[|xs| - 1];
    InitLast(xs);
    assert multiset(xs) == multiset(init) + multiset{last};
    CountNone(init, q);
    if last == x {
      assert x !in init;
    } else {
      CountOne(init, q, x);
    }
  }

  lemma KnownFiles(ix: Indexer, owner: string -> string, files: seq<File>)
    requires IndexerOk(ix, owner) && DistinctPaths(files)
    ensures FullScope(ix, files).known == ParsedPaths(ix, files)
  {
    var parsed := ParseAll(ix, files);
    forall path: string
      ensures path in FullScope(ix, files).known
         <==> path in ParsedPaths(ix, files)
    {
      if p :| p in parsed && p.path == path {
        ParsedMember(ix, files, p);
      }
      if f :| f in files && f.path == path && ix.parse(f.path, f.content).Some? {
        ParsedMember(ix, files, ix.parse(f.path, f.content).value);
      }
    }
  }

  // The symbols calls are resolved among are the nodes that are no files, each once.
  lemma NamedAreNodes(ix: Indexer, owner: string -> string, files: seq<File>, g: Graph, s: Symbol)
    requires IndexerOk(ix, owner) && DistinctPaths(files) && NodesExact(ix, g, files) && s.kind != FileKind
    ensures s in FullScope(ix, files).named <==> s in g.nodes
    ensures multiset(FullScope(ix, files).named)[s] <= 1
  {
    FullScopeIsFresh(ix, files);
    NamedCount(ix, owner, NO_GRAPH, [], files, s);
    assert Distinct(g.nodes);
    DistinctCount(g.nodes, s);
    assert s in multiset(g.nodes) <==> s in g.nodes;
    assert s in multiset(FullScope(ix, files).named) <==> s in FullScope(ix, files).named;
  }

  // Either s is the only near one, or there is none near and s is the only one.
  lemma CountedOne<T>(xs: seq<T>, all: T -> bool, near: T -> bool, s: T)
    requires forall y | all(y) :: multiset(xs)[y] <= 1
    requires forall y | near(y) :: all(y)
    requires s in xs && all(s)
    ensures (if Count(xs, near) == 0 then Count(xs, all) == 1 else Count(xs, near) == 1 && near(s))
       <==> (if exists t :: t in xs && near(t) then near(s) && forall t | t in xs && near(t) :: t == s
             else forall t | t in xs && all(t) :: t == s)
  {
    CountNone(xs, near);
    CountOne(xs, all, s);
    if near(s) {
      CountOne(xs, near, s);
    }
  }

  function NearBy(ix: Indexer, files: seq<File>, p: ParsedSymbols, name: string): Symbol -> bool {
    MayMeanLocally(ix, FullScope(ix, files), [p], p.path, name)
  }

  lemma BearersAreNamed(ix: Indexer, owner: string -> string, files: seq<File>, g: Graph, p: ParsedSymbols,
                        name: string,
                        t: Symbol)
    requires IndexerOk(ix, owner) && DistinctPaths(files) && NodesExact(ix, g, files)
    ensures t in FullScope(ix, files).named && MayMean(name)(t) <==> Bears(g, name, t)
    ensures t in FullScope(ix, files).named && NearBy(ix, files, p, name)(t)
       <==> Bears(g, name, t) && Reachable(ix, files, p, t.path)
    ensures MayMean(name)(t) ==> multiset(FullScope(ix, files).named)[t] <= 1
  {
    if t.kind != FileKind {
      NamedAreNodes(ix, owner, files, g, t);
    }
    ImportsAlike(ix, owner, files, p, t.path);
  }

  ghost function Bearing(g: Graph, name: string): Symbol -> bool {
    (s: Symbol) => Bears(g, name, s)
  }

  ghost function Reached(ix: Indexer, files: seq<File>, p: ParsedSymbols): Symbol -> bool {
    (s: Symbol) => Reachable(ix, files, p, s.path)
  }

  // The same, said of all symbols that bear the name.
  lemma OneOfBearers(xs: seq<Symbol>, all: Symbol -> bool, near: Symbol -> bool, bears: Symbol -> bool,
                     reached: Symbol -> bool, s: Symbol)
    requires forall y | all(y) :: multiset(xs)[y] <= 1
    requires forall y | near(y) :: all(y)
    requires forall t: Symbol :: t in xs && all(t) <==> bears(t)
    requires forall t: Symbol :: t in xs && near(t) <==> bears(t) && reached(t)
    ensures (s in xs && all(s) && if Count(xs, near) == 0 then Count(xs, all) == 1 else Count(xs, near) == 1 && near(s))
       <==> (bears(s) && if exists t :: bears(t) && reached(t)
                         then reached(s) && forall t | bears(t) && reached(t) :: t == s
                         else forall t | bears(t) :: t == s)
  {
    if bears(s) {
      CountedOne(xs, all, near, s);
    }
  }

  lemma MeansIsDenotes(ix: Indexer, owner: string -> string, files: seq<File>, g: Graph, p: ParsedSymbols,
                       name: string, s: Symbol)
    requires IndexerOk(ix, owner) && DistinctPaths(files) && NodesExact(ix, g, files)
    ensures Means(ix, FullScope(ix, files), [p], p.path, name, s) <==> Denotes(ix, files, g, p, name, s)
  {
    var scope := FullScope(ix, files);
    var all, near := MayMean(name), NearBy(ix, files, p, name);
    forall t: Symbol
      ensures t in scope.named && all(t) <==> Bearing(g, name)(t)
      ensures t in scope.named && near(t) <==> Bearing(g, name)(t) && Reached(ix, files, p)(t)
      ensures all(t) ==> multiset(scope.named)[t] <= 1
    {
      BearersAreNamed(ix, owner, files, g, p, name, t);
    }
    OneOfBearers(scope.named, all, near, Bearing(g, name), Reached(ix, files, p), s);
    MeansCounted(ix, files, p, name, s);
    DenotesBearer(ix, files, g, p, name, s);
  }

  lemma MeansCounted(ix: Indexer, files: seq<File>, p: ParsedSymbols, name: string, s: Symbol)
    ensures (var xs := FullScope(ix, files).named;
             var near := NearBy(ix, files, p, name);
             Means(ix, FullScope(ix, files), [p], p.path, name, s)
             <==> s in xs && MayMean(name)(s)
                  && if Count(xs, near) == 0 then Count(xs, MayMean(name)) == 1 else Count(xs, near) == 1 && near(s))
  {
  }

  lemma DenotesBearer(ix: Indexer, files: seq<File>, g: Graph, p: ParsedSymbols, name: string, s: Symbol)
    ensures (var bears, reached := Bearing(g, name), Reached(ix, files, p);
             Denotes(ix, files, g, p, name, s)
             <==> bears(s) && if exists t :: bears(t) && reached(t)
                              then reached(s) && forall t | bears(t) && reached(t) :: t == s
                              else forall t | bears(t) :: t == s)
  {
    var bears, reached := Bearing(g, name), Reached(ix, files, p);
    forall t: Symbol
      ensures bears(t) <==> Bears(g, name, t)
      ensures reached(t) <==> Reachable(ix, files, p, t.path)
    {
    }
    if t: Symbol :| bears(t) && reached(t) {
      assert Bears(g, name, t) && Reachable(ix, files, p, t.path);
    }
    if t: Symbol :| Bears(g, name, t) && Reachable(ix, files, p, t.path) {
      assert bears(t) && reached(t);
    }
  }

  lemma ImportsAlike(ix: Indexer, owner: string -> string, files: seq<File>, p: ParsedSymbols, target: string)
    requires IndexerOk(ix, owner) && DistinctPaths(files)
    ensures FileImports(ix, FullScope(ix, files), [p], p.path, target) <==> Reachable(ix, files, p, target)
    ensures forall raw ::
        LeadsTo(ix, FullScope(ix, files), p.path, raw, target) <==> ImportLeads(ix, files, p.path, raw, target)
  {
    KnownFiles(ix, owner, files);
    assert LastAt([p], 0, p.path);
    assert FileImports(ix, FullScope(ix, files), [p], p.path, target)
      <==> ImportsIt(ix, FullScope(ix, files), p, target);
  }

  lemma CallsAlike(ix: Indexer, owner: string -> string, files: seq<File>, g: Graph, p: ParsedSymbols, e: Edge,
                   call: RawCall)
    requires IndexerOk(ix, owner) && DistinctPaths(files) && NodesExact(ix, g, files)
    ensures CallMakes(ix, FullScope(ix, files), [p], p, e, call) <==> CallGives(ix, files, g, p, e, call)
  {
    if MeansId(ix, FullScope(ix, files), [p], p.path, call.calleeName, e.toId) {
      MeantDenoted(ix, owner, files, g, p, call.calleeName, e.toId);
    }
    if DenotesId(ix, files, g, p, call.calleeName, e.toId) {
      DenotedMeant(ix, owner, files, g, p, call.calleeName, e.toId);
    }
  }

  lemma MeantDenoted(ix: Indexer, owner: string -> string, files: seq<File>, g: Graph, p: ParsedSymbols, name: string,
                     id: string)
    requires IndexerOk(ix, owner) && DistinctPaths(files) && NodesExact(ix, g, files)
    requires MeansId(ix, FullScope(ix, files), [p], p.path, name, id)
    ensures DenotesId(ix, files, g, p, name, id)
  {
    var s :| s in FullScope(ix, files).named && s.id == id && Means(ix, FullScope(ix, files), [p], p.path, name, s);
    MeansIsDenotes(ix, owner, files, g, p, name, s);
  }

  lemma DenotedMeant(ix: Indexer, owner: string -> string, files: seq<File>, g: Graph, p: ParsedSymbols, name: string,
                     id: string)
    requires IndexerOk(ix, owner) && DistinctPaths(files) && NodesExact(ix, g, files)
    requires DenotesId(ix, files, g, p, name, id)
    ensures MeansId(ix, FullScope(ix, files), [p], p.path, name, id)
  {
    var s: Symbol :| s.id == id && Denotes(ix, files, g, p, name, s);
    MeansIsDenotes(ix, owner, files, g, p, name, s);
    MeantIsNamed(ix, FullScope(ix, files), [p], p.path, name, s);
  }

  lemma MeantIsNamed(ix: Indexer, scope: Scope, parsed: seq<ParsedSymbols>, path: string, name: string, s: Symbol)
    requires Means(ix, scope, parsed, path, name, s)
    ensures s in scope.named
  {
  }

  // The edges of one file, each as often as the file says.
  lemma FileEdgesMade(ix: Indexer, p: ParsedSymbols, scope: Scope, e: Edge)
    ensures multiset(FileEdges(ix, p, scope))[e] == TimesMade(ix, scope, [p], p, e)
  {
    DefinesMade(p, e);
    ImportsMade(ix, scope, p, e);
    CallsMade(ix, scope, [p], p, e);
    PreferredExact(ix, [p], scope, p);
    assert ReferencesIn(ix, [p], scope)(p) == ReferenceEdges(p, scope, Imported(ix, p, scope));
  }

  lemma FullIsFileEdges(ix: Indexer, owner: string -> string, files: seq<File>, f: File, e: Edge)
    requires IndexerOk(ix, owner) && DistinctPaths(files) && e.kind != Tests
    requires f in files && owner(e.fromId) == f.path
    ensures multiset(FullGraph(ix, files).edges)[e]
         == match ix.parse(f.path, f.content)
            case Some(p) => TimesMade(ix, FullScope(ix, files), [p], p, e)
            case None => 0
  {
    FullCount(ix, owner, files, e);
    FullEdgesOfFile(ix, owner, files, f, e);
    if ix.parse(f.path, f.content).Some? {
      FileEdgesMade(ix, ix.parse(f.path, f.content).value, FullScope(ix, files), e);
    }
  }

  // A build holds a `references` edge once for each call of the file it leaves that goes
  // from there to what it denotes.
  lemma CallsAreLinked(ix: Indexer, owner: string -> string, files: seq<File>, f: File, e: Edge)
    requires IndexerOk(ix, owner) && DistinctPaths(files) && e.kind == References
    requires f in files && owner(e.fromId) == f.path
    ensures multiset(FullGraph(ix, files).edges)[e]
         == match ix.parse(f.path, f.content)
            case Some(p) => Count(p.calls, CallsGiving(ix, files, FullGraph(ix, files), p, e))
            case None => 0
  {
    FullIsFileEdges(ix, owner, files, f, e);
    if ix.parse(f.path, f.content).Some? {
      FullGraphNodes(ix, owner, files);
      CallsCounted(ix, owner, files, FullGraph(ix, files), ix.parse(f.path, f.content).value, e);
    }
  }

  lemma CallsCounted(ix: Indexer, owner: string -> string, files: seq<File>, g: Graph, p: ParsedSymbols, e: Edge)
    requires IndexerOk(ix, owner) && DistinctPaths(files) && NodesExact(ix, g, files)
    ensures Count(p.calls, CallsMaking(ix, FullScope(ix, files), [p], p, e))
         == Count(p.calls, CallsGiving(ix, files, g, p, e))
  {
    var scope := FullScope(ix, files);
    forall call | call in p.calls
      ensures CallsMaking(ix, scope, [p], p, e)(call) == CallsGiving(ix, files, g, p, e)(call)
    {
      CallsAlike(ix, owner, files, g, p, e, call);
    }
    CountSame(p.calls, CallsMaking(ix, scope, [p], p, e), CallsGiving(ix, files, g, p, e));
  }

  // An `imports` edge once for each import of the file that leads to its target.
  lemma ImportsAreLinked(ix: Indexer, owner: string -> string, files: seq<File>, f: File, e: Edge)
    requires IndexerOk(ix, owner) && DistinctPaths(files) && e.kind == Imports
    requires f in files && owner(e.fromId) == f.path
    ensures multiset(FullGraph(ix, files).edges)[e]
         == match ix.parse(f.path, f.content)
            case Some(p) => Count(p.imports, ImportsGiving(ix, files, p, e))
            case None => 0
  {
    FullIsFileEdges(ix, owner, files, f, e);
    if ix.parse(f.path, f.content).Some? {
      ImportsCounted(ix, owner, files, ix.parse(f.path, f.content).value, e);
    }
  }

  lemma ImportsCounted(ix: Indexer, owner: string -> string, files: seq<File>, p: ParsedSymbols, e: Edge)
    requires IndexerOk(ix, owner) && DistinctPaths(files)
    ensures Count(p.imports, ImportsMaking(ix, FullScope(ix, files), p, e))
         == Count(p.imports, ImportsGiving(ix, files, p, e))
  {
    ImportsAlike(ix, owner, files, p, e.toId);
    CountSame(p.imports, ImportsMaking(ix, FullScope(ix, files), p, e), ImportsGiving(ix, files, p, e));
  }

  // A `defines` edge once for each symbol, from the file to it.
  lemma SymbolsAreDefined(ix: Indexer, owner: string -> string, files: seq<File>, f: File, e: Edge)
    requires IndexerOk(ix, owner) && DistinctPaths(files) && e.kind == Defines
    requires f in files && owner(e.fromId) == f.path
    ensures multiset(FullGraph(ix, files).edges)[e]
         == if ix.parse(f.path, f.content).Some? && e.fromId == f.path
               && exists s | s in ix.parse(f.path, f.content).value.symbols :: s.id == e.toId
            then 1 else 0
  {
    FullIsFileEdges(ix, owner, files, f, e);
    if ix.parse(f.path, f.content).Some? {
      var p := ix.parse(f.path, f.content).value;
      assert ParsedOk(p, f.path, owner);
      SymbolsCounted(p, e);
    }
  }

  lemma SymbolsCounted(p: ParsedSymbols, e: Edge)
    requires DistinctIds(p.symbols)
    ensures Count(p.symbols, SymbolsMaking(p, e))
         == if e.fromId == p.path && exists s | s in p.symbols :: s.id == e.toId then 1 else 0
  {
    var makes := SymbolsMaking(p, e);
    CountNone(p.symbols, makes);
    if s :| s in p.symbols && s.id == e.toId && e.fromId == p.path {
      forall y | makes(y) ensures multiset(p.symbols)[y] <= 1 {
        DistinctCount(p.symbols, y);
      }
      CountOne(p.symbols, makes, s);
    }
  }

  // ---- Tests --------------------------------------------------------------------------

  // A part of the lower-cased path, or of its last segment, marks it as that of a test.
  ghost predicate MarksTest(path: string) {
    || HoldsAny(Lower(path), {"/test/", "/tests/", "/__tests__/"})
    || exists name :: IsLastSegment(name, Lower(path)) && HoldsAny(name, {".test.", ".spec.", "_test.", "test_"})
  }

  ghost predicate HoldsAny(text: string, markers: set<string>) {
    exists m | m in markers :: Holds(text, m)
  }

  ghost predicate Holds(text: string, marker: string) {
    exists a, b :: text == a + marker + b
  }

  lemma ContainsIsHolds(text: string, marker: string)
    ensures Contains(text, marker) <==> Holds(text, marker)
  {
    if a, b :| text == a + marker + b {
      assert text[|a|..] == marker + b;
    }
    if i :| 0 <= i <= |text| && marker <= text[i..] {
      assert text == text[..i] + marker + text[i + |marker|..];
    }
  }

  lemma OneOfThree(text: string, a: string, b: string, c: string)
    ensures Contains(text, a) || Contains(text, b) || Contains(text, c) <==> HoldsAny(text, {a, b, c})
  {
    ContainsIsHolds(text, a);
    ContainsIsHolds(text, b);
    ContainsIsHolds(text, c);
  }

  lemma OneOfFour(text: string, a: string, b: string, c: string, d: string)
    ensures Contains(text, a) || Contains(text, b) || Contains(text, c) || Contains(text, d)
       <==> HoldsAny(text, {a, b, c, d})
  {
    ContainsIsHolds(text, a);
    ContainsIsHolds(text, b);
    ContainsIsHolds(text, c);
    ContainsIsHolds(text, d);
  }

  lemma LastSegmentIs(path: string, markers: set<string>)
    ensures (exists name :: IsLastSegment(name, path) && HoldsAny(name, markers)) <==> HoldsAny(BaseName(path), markers)
  {
    assert IsLastSegment(BaseName(path), path);
    forall name | IsLastSegment(name, path) ensures name == BaseName(path) {
      LastSegmentUnique(name, BaseName(path), path);
    }
  }

  lemma TestPathExact(path: string)
    ensures IsTestPath(path) <==> MarksTest(path)
  {
    var lower := Lower(path);
    OneOfThree(lower, "/test/", "/tests/", "/__tests__/");
    OneOfFour(BaseName(lower), ".test.", ".spec.", "_test.", "test_");
    LastSegmentIs(lower, {".test.", ".spec.", "_test.", "test_"});
  }

  // Lower-casing is that of each letter.
  lemma LowerExact(path: string, i: nat)
    requires i < |path|
    ensures |Lower(path)| == |path|
    ensures if 'A' <= path[i] <= 'Z' then Lower(path)[i] as int == path[i] as int - 'A' as int + 'a' as int
            else Lower(path)[i] == path[i]
  {
  }

  // A `tests` edge beside each `references` or `imports` edge that leaves a node of a
  // test file.
  lemma TestsAreMarked(ix: Indexer, owner: string -> string, files: seq<File>, s: Symbol, e: Edge)
    requires IndexerOk(ix, owner) && DistinctPaths(files) && e.kind == Tests
    requires s in FullGraph(ix, files).nodes && s.id == e.fromId
    ensures (var edges := multiset(FullGraph(ix, files).edges);
             edges[e] == if MarksTest(s.path) then edges[e.(kind := References)] + edges[e.(kind := Imports)] else 0)
  {
    FullTests(ix, owner, files);
    FullGraphNodes(ix, owner, files);
    FindDistinct(FullGraph(ix, files).nodes, s);
    TestPathExact(s.path);
  }
}
