// Chains of builds: each build reads back what the one before it stored.
module IndexHistory {
  import opened Lists
  import opened CodeGraph
  import opened GraphBuild
  import opened Incremental
  import opened IncrementalNodes
  import opened IncrementalEdges
  import opened IncrementalTheorems

  function LastFiles(builds: seq<seq<File>>): seq<File> {
    if builds == [] then [] else builds[|builds| - 1]
  }

  // `stored` is what a look-up finds after `builds` have run in order, starting
  // from an empty index.
  ghost predicate Reaches(ix: Indexer, builds: seq<seq<File>>, stored: Option<Graph>) {
    if builds == [] then stored.None?
    else
      var files := builds[|builds| - 1];
      && DistinctPaths(files)
      && exists prev :: Reaches(ix, builds[..|builds| - 1], prev) && StoredFrom(ix, prev, files, stored)
  }

  ghost predicate StoredFrom(ix: Indexer, prev: Option<Graph>, files: seq<File>, stored: Option<Graph>) {
    ReadBack(IncrementalGraph(ix, prev.GetOr(NO_GRAPH), files), stored)
  }

  // What the last of these builds may write: the incremental build of its files over
  // an outcome of the builds before it.
  ghost predicate Builds(ix: Indexer, builds: seq<seq<File>>, g: Graph) {
    && builds != [] && DistinctPaths(LastFiles(builds))
    && exists prev :: Reaches(ix, builds[..|builds| - 1], prev) && BuiltFrom(ix, prev, LastFiles(builds), g)
  }

  // The endpoints of a graph come from elsewhere.
  ghost predicate BuiltFrom(ix: Indexer, prev: Option<Graph>, files: seq<File>, g: Graph) {
    var built := IncrementalGraph(ix, prev.GetOr(NO_GRAPH), files);
    g.nodes == built.nodes && g.edges == built.edges
  }

  lemma BuildsReach(ix: Indexer, builds: seq<seq<File>>, g: Graph, r: Option<Graph>)
    requires Builds(ix, builds, g) && ReadBack(g, r)
    ensures Reaches(ix, builds, r)
  {
    var prev :| Reaches(ix, builds[..|builds| - 1], prev) && BuiltFrom(ix, prev, LastFiles(builds), g);
    assert StoredFrom(ix, prev, LastFiles(builds), r);
  }

  lemma BuildExtends(ix: Indexer, builds: seq<seq<File>>, prev: Option<Graph>, files: seq<File>, g: Graph)
    requires DistinctPaths(files) && Reaches(ix, builds, prev) && BuiltFrom(ix, prev, files, g)
    ensures Builds(ix, builds + [files], g)
  {
    var all := builds + [files];
    LastOfChain(builds, files);
    assert Reaches(ix, all[..|all| - 1], prev) && BuiltFrom(ix, prev, LastFiles(all), g);
  }

  lemma LastOfChain(builds: seq<seq<File>>, files: seq<File>)
    ensures (builds + [files])[..|builds + [files]| - 1] == builds && LastFiles(builds + [files]) == files
  {
  }

  ghost predicate DefinesExact(ix: Indexer, g: Graph, files: seq<File>) {
    forall e: Edge | e.kind == Defines :: multiset(g.edges)[e] == multiset(FullGraph(ix, files).edges)[e]
  }

  // The index of `files`: the nodes and `defines` edges of a build from scratch,
  // edges whose two ends are nodes, one `tests` edge per link out of a test file.
  ghost predicate IndexOf(ix: Indexer, owner: string -> string, g: Graph, files: seq<File>) {
    && NodesExact(ix, g, files) && EdgesRooted(g, owner) && TestsExact(g) && DefinesExact(ix, g, files)
    && forall e | e in g.edges :: Closed(g.nodes, e)
  }

  lemma NodesRooted(ix: Indexer, owner: string -> string, g: Graph, files: seq<File>)
    requires IndexerOk(ix, owner) && NodesExact(ix, g, files)
    ensures forall s | s in g.nodes :: owner(s.id) == s.path
  {
    forall s | s in g.nodes ensures owner(s.id) == s.path {
      assert s in multiset(g.nodes);
      assert s in multiset(FullNodes(ix, files));
      FullNodesMember(ix, owner, files, s);
      var f :| f in files && f.path == s.path && s in FileSymbols(ix, f);
      FileSymbolsOwned(ix, owner, f);
    }
  }

  // A file's `defines` edges join two symbols of that file.
  lemma DefinesClosed(ix: Indexer, owner: string -> string, g: Graph, files: seq<File>, f: File, e: Edge)
    requires IndexerOk(ix, owner) && NodesExact(ix, g, files)
    requires f in files && ix.parse(f.path, f.content).Some? && e in DefinesEdges(ix.parse(f.path, f.content).value)
    ensures Closed(g.nodes, e)
  {
    var p := ix.parse(f.path, f.content).value;
    FlatMapMember(p.symbols, DefinesEdge(p.path), e);
    var s :| s in p.symbols && e == Edge(p.path, s.id, Defines);
    forall t | t in FileSymbols(ix, f) ensures t in g.nodes {
      FileSymbolsOwned(ix, owner, f);
      FullNodesMember(ix, owner, files, t);
      assert t in multiset(g.nodes);
    }
    assert FileSymbol(f.path, ix.hash(f.content)) in FileSymbols(ix, f) && s in FileSymbols(ix, f);
  }

  // Of a file's edges, those of kind `defines` do not depend on the other files.
  lemma DefinesCount(ix: Indexer, owner: string -> string, p: ParsedSymbols, scope: Scope, e: Edge)
    requires ParsedOk(p, p.path, owner) && e.kind == Defines
    ensures multiset(FileEdges(ix, p, scope))[e] == multiset(DefinesEdges(p))[e]
  {
    var preferred := Imported(ix, p, scope);
    FlatMapMember(ImportTargets(ix, p, scope), ImportsEdge(p.path), e);
    FlatMapMember(p.calls, EdgesOfCall(p, scope, preferred), e);
    assert e !in multiset(ImportEdges(ix, p, scope)) && e !in multiset(ReferenceEdges(p, scope, preferred));
  }

  lemma NoTestEdges(ix: Indexer, owner: string -> string, prev: Graph, files: seq<File>)
    requires IndexerOk(ix, owner) && DistinctPaths(files) && EdgesRooted(prev, owner)
    ensures forall d | d in MergedGraph(ix, prev, files).edges :: d.kind != Tests
  {
    forall d | d in MergedGraph(ix, prev, files).edges ensures d.kind != Tests {
      MergedEdgesLeave(ix, owner, prev, files, d);
    }
  }

  // How often e is in the build from scratch, for a `defines` edge of a listed file.
  lemma FullDefines(ix: Indexer, owner: string -> string, files: seq<File>, f: File, e: Edge)
    requires IndexerOk(ix, owner) && DistinctPaths(files)
    requires f in files && owner(e.fromId) == f.path && e.kind == Defines
    ensures multiset(FullGraph(ix, files).edges)[e]
         == match ix.parse(f.path, f.content)
            case Some(p) => multiset(DefinesEdges(p))[e]
            case None => 0
  {
    NoGraphRooted(owner);
    NoTestEdges(ix, owner, NO_GRAPH, files);
    FinishedCount(MergedGraph(ix, NO_GRAPH, files), e);
    FullEdgesOfFile(ix, owner, files, f, e);
    if ix.parse(f.path, f.content).Some? {
      DefinesCount(ix, owner, ix.parse(f.path, f.content).value, FullScope(ix, files), e);
    }
  }

  lemma MergedDefines(ix: Indexer, owner: string -> string, prev: Graph, files0: seq<File>, files: seq<File>, e: Edge)
    requires IndexerOk(ix, owner) && DistinctPaths(files) && DistinctPaths(files0)
    requires IndexOf(ix, owner, prev, files0) && e.kind == Defines
    ensures multiset(MergedGraph(ix, prev, files).edges)[e] == multiset(FullGraph(ix, files).edges)[e]
  {
    if f :| f in files && f.path == owner(e.fromId) {
      FullDefines(ix, owner, files, f, e);
      if Unchanged(ix, prev, files, f) {
        UnchangedSource(ix, owner, prev, files0, files, f);
        UnchangedFileEdges(ix, owner, prev, files, f, e);
        FullDefines(ix, owner, files0, f, e);
      } else {
        ChangedFileEdges(ix, owner, prev, files0, files, f, e);
        NoGraphRooted(owner);
        NoTestEdges(ix, owner, NO_GRAPH, files);
        FinishedCount(MergedGraph(ix, NO_GRAPH, files), e);
      }
    } else {
      MergedCountNone(ix, owner, prev, files, e);
      NoGraphRooted(owner);
      MergedCountNone(ix, owner, NO_GRAPH, files, e);
      NoTestEdges(ix, owner, NO_GRAPH, files);
      FinishedCount(MergedGraph(ix, NO_GRAPH, files), e);
    }
  }

  lemma FullDefinesClosed(ix: Indexer, owner: string -> string, g: Graph, files: seq<File>, e: Edge)
    requires IndexerOk(ix, owner) && DistinctPaths(files) && NodesExact(ix, g, files)
    requires e.kind == Defines && multiset(FullGraph(ix, files).edges)[e] > 0
    ensures Closed(g.nodes, e)
  {
    NoGraphRooted(owner);
    NoTestEdges(ix, owner, NO_GRAPH, files);
    FinishedCount(MergedGraph(ix, NO_GRAPH, files), e);
    assert e in multiset(MergedGraph(ix, NO_GRAPH, files).edges);
    MergedEdgesLeave(ix, owner, NO_GRAPH, files, e);
    var f :| f in files && f.path == owner(e.fromId);
    FullDefines(ix, owner, files, f, e);
    assert e in multiset(DefinesEdges(ix.parse(f.path, f.content).value));
    DefinesClosed(ix, owner, g, files, f, e);
  }

  // How often an edge is read back.
  lemma ReadBackCount(g: Graph, r: Graph, e: Edge)
    requires DistinctIds(g.nodes) && g.nodes != [] && ReadBack(g, Some(r))
    ensures multiset(r.edges)[e] == if Closed(g.nodes, e) then multiset(g.edges)[e] else 0
    ensures Closed(r.nodes, e) == Closed(g.nodes, e)
    ensures SourcePath(r.nodes, e) == SourcePath(g.nodes, e)
  {
    FilterCount(g.edges, ClosedAmong(g.nodes), e);
    FindSameBag(g.nodes, r.nodes, e.fromId);
    FindSameBag(g.nodes, r.nodes, e.toId);
  }

  // One build, stored and read back, indexes its files.
  lemma BuildStep(ix: Indexer, owner: string -> string, prev: Graph, files0: seq<File>, files: seq<File>,
                  r: Option<Graph>)
    requires IndexerOk(ix, owner) && DistinctPaths(files) && DistinctPaths(files0)
    requires IndexOf(ix, owner, prev, files0) && ReadBack(IncrementalGraph(ix, prev, files), r)
    ensures IndexOf(ix, owner, r.GetOr(NO_GRAPH), files)
  {
    var g := IncrementalGraph(ix, prev, files);
    var s := r.GetOr(NO_GRAPH);
    NodesAgree(ix, owner, prev, files0, files);
    NodesRooted(ix, owner, s, files);
    ReadBackCounts(g, r);
    forall e | e in s.edges ensures Closed(s.nodes, e) {
      assert multiset(s.edges)[e] > 0;
    }
    forall e: Edge | e.kind == Defines ensures multiset(s.edges)[e] == multiset(FullGraph(ix, files).edges)[e] {
      BuiltDefines(ix, owner, prev, files0, files, e);
      if multiset(FullGraph(ix, files).edges)[e] > 0 {
        FullDefinesClosed(ix, owner, s, files, e);
      }
    }
    if r.Some? {
      ReadBackTests(ix, owner, prev, files, s);
    }
  }

  lemma ReadBackCounts(g: Graph, r: Option<Graph>)
    requires DistinctIds(g.nodes) && ReadBack(g, r)
    ensures (var s := r.GetOr(NO_GRAPH);
             forall e: Edge :: multiset(s.edges)[e] == if Closed(s.nodes, e) then multiset(g.edges)[e] else 0)
  {
    var s := r.GetOr(NO_GRAPH);
    forall e: Edge ensures multiset(s.edges)[e] == if Closed(s.nodes, e) then multiset(g.edges)[e] else 0 {
      if r.Some? { ReadBackCount(g, s, e); }
    }
  }

  lemma BuiltDefines(ix: Indexer, owner: string -> string, prev: Graph, files0: seq<File>, files: seq<File>, e: Edge)
    requires IndexerOk(ix, owner) && DistinctPaths(files) && DistinctPaths(files0)
    requires IndexOf(ix, owner, prev, files0) && e.kind == Defines
    ensures multiset(IncrementalGraph(ix, prev, files).edges)[e] == multiset(FullGraph(ix, files).edges)[e]
  {
    NoTestEdges(ix, owner, prev, files);
    FinishedCount(MergedGraph(ix, prev, files), e);
    MergedDefines(ix, owner, prev, files0, files, e);
  }

  lemma ReadBackTests(ix: Indexer, owner: string -> string, prev: Graph, files: seq<File>, r: Graph)
    requires IndexerOk(ix, owner) && DistinctPaths(files) && EdgesRooted(prev, owner)
    requires DistinctIds(IncrementalGraph(ix, prev, files).nodes)
        && ReadBack(IncrementalGraph(ix, prev, files), Some(r))
    ensures TestsExact(r)
  {
    var g := MergedGraph(ix, prev, files);
    NoTestEdges(ix, owner, prev, files);
    forall e: Edge | e.kind == Tests
      ensures multiset(r.edges)[e]
           == if IsTestPath(SourcePath(r.nodes, e))
              then multiset(r.edges)[e.(kind := References)] + multiset(r.edges)[e.(kind := Imports)] else 0
    {
      var reference, imported := e.(kind := References), e.(kind := Imports);
      FinishedCount(g, e);
      FinishedCount(g, reference);
      FinishedCount(g, imported);
      ReadBackCount(WithTestEdges(g), r, e);
      ReadBackCount(WithTestEdges(g), r, reference);
      ReadBackCount(WithTestEdges(g), r, imported);
    }
  }

  lemma EmptyIndex(ix: Indexer, owner: string -> string)
    requires IndexerOk(ix, owner)
    ensures IndexOf(ix, owner, NO_GRAPH, [])
  {
    FullScopeIsFresh(ix, []);
    assert FullGraph(ix, []).edges == [];
  }

  // After any number of builds, the index is that of the latest files.
  lemma {:induction false} ChainKeepsIndex(ix: Indexer, owner: string -> string, builds: seq<seq<File>>,
                                           stored: Option<Graph>)
    requires IndexerOk(ix, owner) && Reaches(ix, builds, stored)
    ensures DistinctPaths(LastFiles(builds)) && IndexOf(ix, owner, stored.GetOr(NO_GRAPH), LastFiles(builds))
  {
    if builds == [] {
      EmptyIndex(ix, owner);
    } else {
      var init, files := builds[..|builds| - 1], builds[|builds| - 1];
      var prev :| Reaches(ix, init, prev) && StoredFrom(ix, prev, files, stored);
      ChainKeepsIndex(ix, owner, init, prev);
      BuildStep(ix, owner, prev.GetOr(NO_GRAPH), LastFiles(init), files, stored);
    }
  }
}
