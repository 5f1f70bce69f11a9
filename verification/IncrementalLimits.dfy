// A stored full build loses nothing; the file limit picks the same files in any
// order; and one link that an incremental build does lose.
module IncrementalLimits {
  import opened Lists
  import opened Strings
  import opened Sorting
  import opened CodeGraph
  import opened GraphBuild
  import opened Incremental
  import opened IncrementalNodes
  import opened IncrementalEdges
  import opened IncrementalTheorems
  import opened IndexHistory

  // ---- Full builds are closed ----------------------------------------------------

  lemma NodeOf(ix: Indexer, owner: string -> string, g: Graph, files: seq<File>, f: File, s: Symbol)
    requires IndexerOk(ix, owner) && NodesExact(ix, g, files)
    requires f in files && s in FileSymbols(ix, f)
    ensures s in g.nodes && Find(g.nodes, s.id).Some?
  {
    FileSymbolsOwned(ix, owner, f);
    FullNodesMember(ix, owner, files, s);
    assert s in multiset(g.nodes);
  }

  lemma CalleeIsCandidate(candidates: seq<Symbol>, preferred: set<string>)
    requires ResolveCallee(candidates, preferred).Some?
    ensures ResolveCallee(candidates, preferred).value in candidates
  {
    var local := Filter(candidates, IsWithin(preferred));
    if |local| == 1 {
      FilterMember(candidates, IsWithin(preferred), local[0]);
    }
  }

  lemma TargetIsNode(ix: Indexer, owner: string -> string, g: Graph, files: seq<File>, p: ParsedSymbols, e: Edge)
    requires IndexerOk(ix, owner) && DistinctPaths(files) && NodesExact(ix, g, files)
    requires p in ParseAll(ix, files) && e in FileEdges(ix, p, FullScope(ix, files))
    ensures Find(g.nodes, e.toId).Some?
  {
    var scope := FullScope(ix, files);
    if e in DefinesEdges(p) {
      ParsedMember(ix, files, p);
      var f :| f in files && ix.parse(f.path, f.content) == Some(p);
      DefinesClosed(ix, owner, g, files, f, e);
    } else if e in ImportEdges(ix, p, scope) {
      ImportedIsNode(ix, owner, g, files, p, e);
    } else {
      CalledIsNode(ix, owner, g, files, p, e);
    }
  }

  lemma ImportedIsNode(ix: Indexer, owner: string -> string, g: Graph, files: seq<File>, p: ParsedSymbols, e: Edge)
    requires IndexerOk(ix, owner) && DistinctPaths(files) && NodesExact(ix, g, files)
    requires e in ImportEdges(ix, p, FullScope(ix, files))
    ensures Find(g.nodes, e.toId).Some?
  {
    var scope := FullScope(ix, files);
    FlatMapMember(ImportTargets(ix, p, scope), ImportsEdge(p.path), e);
    FlatMapMember(p.imports, TargetIn(ix, p, scope), e.toId);
    assert e.toId in scope.known;
    FullScopeIsFresh(ix, files);
    KnownPaths(ix, owner, NO_GRAPH, [], files, e.toId);
    var h :| h in files && h.path == e.toId && ix.parse(h.path, h.content).Some?;
    NodeOf(ix, owner, g, files, h, FileSymbol(h.path, ix.hash(h.content)));
  }

  lemma CalledIsNode(ix: Indexer, owner: string -> string, g: Graph, files: seq<File>, p: ParsedSymbols, e: Edge)
    requires IndexerOk(ix, owner) && DistinctPaths(files) && NodesExact(ix, g, files)
    requires e in ReferenceEdges(p, FullScope(ix, files), Imported(ix, p, FullScope(ix, files)))
    ensures Find(g.nodes, e.toId).Some?
  {
    var scope := FullScope(ix, files);
    var s := CalleeOf(p, scope, Imported(ix, p, scope), e);
    FullScopeIsFresh(ix, files);
    NamedCount(ix, owner, NO_GRAPH, [], files, s);
    assert s in multiset(scope.named);
    assert s in multiset(FullNodes(ix, files));
    assert s in multiset(g.nodes);
  }

  // A reference leads to a symbol that is no file and that its name could mean.
  lemma CalleeOf(p: ParsedSymbols, scope: Scope, preferred: set<string>, e: Edge) returns (s: Symbol)
    requires e in ReferenceEdges(p, scope, preferred)
    ensures s in scope.named && s.kind != FileKind && s.id == e.toId
  {
    FlatMapMember(p.calls, EdgesOfCall(p, scope, preferred), e);
    var c :| c in p.calls && e in CallEdges(p, scope, preferred, c);
    var candidates := CandidatesFor(scope.named, c.calleeName);
    CalleeIsCandidate(candidates, preferred);
    s := ResolveCallee(candidates, preferred).value;
    FilterMember(scope.named, IsCandidate(c.calleeName), s);
  }

  lemma SourceIsNode(ix: Indexer, owner: string -> string, g: Graph, files: seq<File>, p: ParsedSymbols, e: Edge)
    requires IndexerOk(ix, owner) && NodesExact(ix, g, files)
    requires p in ParseAll(ix, files) && e in FileEdges(ix, p, FullScope(ix, files))
    ensures Find(g.nodes, e.fromId).Some?
  {
    ParsedMember(ix, files, p);
    var f :| f in files && ix.parse(f.path, f.content) == Some(p);
    FileEdgesLeave(ix, owner, p, FullScope(ix, files), Imported(ix, p, FullScope(ix, files)), e);
    if e.fromId == p.path {
      NodeOf(ix, owner, g, files, f, FileSymbol(f.path, ix.hash(f.content)));
    } else {
      var s :| s in p.symbols && s.id == e.fromId;
      NodeOf(ix, owner, g, files, f, s);
    }
  }

  lemma FullClosed(ix: Indexer, owner: string -> string, files: seq<File>)
    requires IndexerOk(ix, owner) && DistinctPaths(files)
    ensures forall e | e in FullGraph(ix, files).edges :: Closed(FullGraph(ix, files).nodes, e)
  {
    var merged := MergedGraph(ix, NO_GRAPH, files);
    var g := FullGraph(ix, files);
    FullGraphNodes(ix, owner, files);
    FullScopeIsFresh(ix, files);
    ParsedDistinct(ix, owner, files);
    forall e | e in merged.edges ensures Closed(g.nodes, e) {
      EdgesMember(ix, owner, ParseAll(ix, files), FullScope(ix, files), e);
      var p :| p in ParseAll(ix, files) && p.path == owner(e.fromId) && e in FileEdges(ix, p, FullScope(ix, files));
      SourceIsNode(ix, owner, g, files, p, e);
      TargetIsNode(ix, owner, g, files, p, e);
    }
    forall e | e in g.edges ensures Closed(g.nodes, e) {
      FlatMapMember(merged.edges, TestEdgeAmong(merged.nodes), e);
    }
  }

  // The first build of a repository, stored and read back, is its full build.
  lemma FirstBuildIsFull(ix: Indexer, owner: string -> string, files: seq<File>, r: Graph)
    requires IndexerOk(ix, owner) && DistinctPaths(files) && Reaches(ix, [files], Some(r))
    ensures PreviousBuild(ix, owner, r, files)
  {
    ChainKeepsIndex(ix, owner, [files], Some(r));
    assert [files][..0] == [];
    var g := FullGraph(ix, files);
    FullClosed(ix, owner, files);
    FilterAll(g.edges, ClosedAmong(g.nodes));
  }

  // ---- The file limit --------------------------------------------------------------

  lemma PathsAreStrict(files: seq<File>)
    requires DistinctPaths(files)
    ensures Strict(files, PathLe)
  {
    forall f, g | f in files && g in files && PathLe(f, g) && PathLe(g, f) ensures f == g {
      LexAntisymmetric(f.path, g.path);
      var i :| 0 <= i < |files| && files[i] == f;
      var j :| 0 <= j < |files| && files[j] == g;
    }
  }

  lemma StrictBag(xs: seq<File>, ys: seq<File>)
    requires Strict(xs, PathLe) && forall f :: f in ys <==> f in xs
    ensures Strict(ys, PathLe)
  {
  }

  // Above the limit, the files indexed do not depend on the order they arrive in.
  lemma SelectionIsDeterministic(files: seq<File>, shuffled: seq<File>, maxFiles: nat)
    requires DistinctPaths(files) && multiset(files) == multiset(shuffled) && |files| > maxFiles
    ensures SelectFiles(files, maxFiles) == SelectFiles(shuffled, maxFiles)
    ensures forall f, g | f in SelectFiles(files, maxFiles) && g in files && g !in SelectFiles(files, maxFiles) ::
        LexLe(f.path, g.path)
  {
    SameBagSameLength(files, shuffled);
    SortedTheSame(files, shuffled);
    var selected := SelectFiles(files, maxFiles);
    var rest :| LeftOut(selected, files, rest);
    forall f, g | f in selected && g in files && g !in selected ensures LexLe(f.path, g.path) {
      assert g in multiset(files) && g !in multiset(selected);
      assert g in multiset(rest) && PathLe(f, g);
    }
  }

  lemma SortedTheSame(files: seq<File>, shuffled: seq<File>)
    requires DistinctPaths(files) && multiset(files) == multiset(shuffled)
    ensures SortBy(files, PathLe) == SortBy(shuffled, PathLe)
  {
    PathOrder();
    SortSorts(files, PathLe);
    SortSorts(shuffled, PathLe);
    SortBag(files, PathLe);
    SortBag(shuffled, PathLe);
    SortMembers(files, PathLe);
    PathsAreStrict(files);
    StrictBag(files, SortBy(files, PathLe));
    SortedUnique(SortBy(files, PathLe), SortBy(shuffled, PathLe), PathLe);
  }

  // ---- A link that reindexing loses ---------------------------------------------------

  function MovedParse(path: string, content: string): Option<ParsedSymbols> {
    if path == "a" then Some(ParsedSymbols("a", [], [RawCall(None, "f")], []))
    else if path == "b" then
      Some(ParsedSymbols("b", [Symbol("b::f@" + content, FunctionKind, "b", "f", 1, 1, "", "", None, "")], [], []))
    else None
  }

  const MOVED_INDEXER := Indexer(
    (path: string, content: string) => MovedParse(path, content),
    (raw: string, path: string, known: set<string>, aliases: Aliases) => None,
    (content: string) => [],
    (content: string) => content)

  function MovedOwner(id: string): string {
    if id == "a" then "a" else "b"
  }

  const CALLER := ParsedSymbols("a", [], [RawCall(None, "f")], [])

  function Callee(content: string): Symbol {
    Symbol("b::f@" + content, FunctionKind, "b", "f", 1, 1, "", "", None, "")
  }

  lemma MovedOk()
    ensures IndexerOk(MOVED_INDEXER, MovedOwner)
  {
    forall content ensures ("b::f@" + content)[0] == 'b' && |"b::f@" + content| > 1 {
    }
  }

  lemma MovedScope(content: string)
    ensures FullScope(MOVED_INDEXER, [File("a", ""), File("b", content)]).named == [Callee(content)]
  {
    var ix := MOVED_INDEXER;
    var fa, fb := File("a", ""), File("b", content);
    var pb := ParsedSymbols("b", [Callee(content)], [], []);
    FlatMapTwo(fa, fb, ParsedWith(ix));
    assert ix.parse("a", "") == Some(CALLER) && ix.parse("b", content) == Some(pb);
    assert ParseAll(ix, [fa, fb]) == [CALLER, pb];
    FlatMapTwo(CALLER, pb, SymbolsOf);
  }

  lemma MovedLink(scope: Scope, content: string)
    requires scope.named == [Callee(content)]
    ensures FileEdges(MOVED_INDEXER, CALLER, scope) == [Edge("a", "b::f@" + content, References)]
  {
    FilterOne(Callee(content), IsCandidate("f"));
    assert CandidatesFor(scope.named, "f") == [Callee(content)];
    assert ImportTargets(MOVED_INDEXER, CALLER, scope) == [];
    FilterOne(Callee(content), IsWithin({}));
    var preferred := Imported(MOVED_INDEXER, CALLER, scope);
    FilterOne(Callee(content), IsWithin(preferred));
    FlatMapOne(RawCall(None, "f"), EdgesOfCall(CALLER, scope, preferred));
  }

  lemma MovedLinkDiffers(files0: seq<File>, files: seq<File>)
    requires files0 == [File("a", ""), File("b", "1")] && files == [File("a", ""), File("b", "2")]
    ensures MOVED_INDEXER.parse("a", "").Some?
    ensures !LinksStable(MOVED_INDEXER, files0, files, File("a", ""))
  {
    MovedScope("1");
    MovedScope("2");
    MovedLink(FullScope(MOVED_INDEXER, files0), "1");
    MovedLink(FullScope(MOVED_INDEXER, files), "2");
    MovedEdgesDiffer();
  }

  lemma MovedEdgesDiffer()
    ensures multiset([Edge("a", "b::f@" + "1", References)]) != multiset([Edge("a", "b::f@" + "2", References)])
  {
    var x, y := Edge("a", "b::f@" + "1", References), Edge("a", "b::f@" + "2", References);
    assert ("b::f@" + "1")[5] != ("b::f@" + "2")[5];
    assert multiset([x])[x] == 1 && multiset([y])[x] == 0;
  }

  lemma MovedPaths(files0: seq<File>, files: seq<File>)
    requires files0 == [File("a", ""), File("b", "1")] && files == [File("a", ""), File("b", "2")]
    ensures DistinctPaths(files0) && DistinctPaths(files)
    ensures File("a", "") in files0 && File("a", "") in files
    ensures !HasOrphanMethod(MOVED_INDEXER.parse("a", "").value.symbols)
  {
    assert files0[0].path[0] != files0[1].path[0] && files[0].path[0] != files[1].path[0];
    assert files0[0] == File("a", "") == files[0];
  }

  // A graph with symbols can be read back.
  lemma SomeReadBack(g: Graph)
    requires DistinctIds(g.nodes) && g.nodes != []
    ensures ReadBack(g, Some(Graph(g.nodes, StoredEdges(g), g.endpoints)))
  {
  }

  // A first build of files of which one parses stores a graph that a look-up finds.
  lemma FirstBuildIsFound(ix: Indexer, owner: string -> string, files: seq<File>, f: File) returns (r: Graph)
    requires IndexerOk(ix, owner) && DistinctPaths(files) && f in files && ix.parse(f.path, f.content).Some?
    ensures Reaches(ix, [files], Some(r))
  {
    var g := FullGraph(ix, files);
    FullGraphNodes(ix, owner, files);
    var s := FileSymbol(f.path, ix.hash(f.content));
    assert s in FileSymbols(ix, f);
    FullNodesMember(ix, owner, files, s);
    assert s in multiset(FullNodes(ix, files)) && multiset(g.nodes) == multiset(FullNodes(ix, files));
    SomeReadBack(g);
    r := Graph(g.nodes, StoredEdges(g), g.endpoints);
    FirstReaches(ix, files, r);
  }

  lemma FirstReaches(ix: Indexer, files: seq<File>, r: Graph)
    requires DistinctPaths(files) && ReadBack(FullGraph(ix, files), Some(r))
    ensures Reaches(ix, [files], Some(r))
  {
    assert [files][..0] == [];
    assert Reaches(ix, [], None) && StoredFrom(ix, None, files, Some(r));
  }

  // File a calls f in file b. When b changes so that f starts elsewhere, the id of
  // f changes; a is unchanged and keeps the edge to the old id. The first build is read
  // back as some r, and whatever it is read back as, the second build differs.
  lemma MovedCalleeIsLost(files0: seq<File>, files: seq<File>)
    requires files0 == [File("a", ""), File("b", "1")] && files == [File("a", ""), File("b", "2")]
    ensures IndexerOk(MOVED_INDEXER, MovedOwner)
    ensures exists r :: Reaches(MOVED_INDEXER, [files0], Some(r))
    ensures forall r | Reaches(MOVED_INDEXER, [files0], Some(r)) ::
        !SameGraph(IncrementalGraph(MOVED_INDEXER, r, files), FullGraph(MOVED_INDEXER, files))
  {
    MovedOk();
    MovedPaths(files0, files);
    var found := FirstBuildIsFound(MOVED_INDEXER, MovedOwner, files0, File("a", ""));
    forall r | Reaches(MOVED_INDEXER, [files0], Some(r))
      ensures !SameGraph(IncrementalGraph(MOVED_INDEXER, r, files), FullGraph(MOVED_INDEXER, files))
    {
      MovedLinkDiffers(files0, files);
      LinkLost(MOVED_INDEXER, MovedOwner, r, files0, files, File("a", ""));
    }
  }

  // One unchanged file with a link that has moved is enough for the builds to differ.
  lemma LinkLost(ix: Indexer, owner: string -> string, r: Graph, files0: seq<File>, files: seq<File>, f: File)
    requires IndexerOk(ix, owner) && DistinctPaths(files) && DistinctPaths(files0)
    requires Reaches(ix, [files0], Some(r))
    requires f in files0 && f in files && ix.parse(f.path, f.content).Some?
    requires !HasOrphanMethod(ix.parse(f.path, f.content).value.symbols) && !LinksStable(ix, files0, files, f)
    ensures !SameGraph(IncrementalGraph(ix, r, files), FullGraph(ix, files))
  {
    FirstBuildIsFull(ix, owner, files0, r);
    UnchangedExactly(ix, owner, r, files0, files, f);
    IncrementalIsFull(ix, owner, r, files0, files);
  }
}
