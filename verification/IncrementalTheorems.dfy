// When an incremental build equals a build from scratch, and what every chain of
// builds keeps.
module IncrementalTheorems {
  import opened Lists
  import opened CodeGraph
  import opened GraphBuild
  import opened Incremental
  import opened IncrementalNodes
  import opened IncrementalEdges

  // Graphs are compared as a dictionary of nodes and a bag of edges.
  ghost predicate SameGraph(a: Graph, b: Graph) {
    multiset(a.nodes) == multiset(b.nodes) && multiset(a.edges) == multiset(b.edges)
  }

  // ---- Which files are parsed again ---------------------------------------------

  predicate HasOrphanMethod(symbols: seq<Symbol>) {
    exists s | s in symbols :: s.kind == MethodKind && s.parentId.None?
  }

  lemma {:induction false} OldHashIs(nodes: seq<Symbol>, s: Symbol)
    requires s in nodes && s.kind == FileKind
    requires forall t | t in nodes && t.kind == FileKind && t.path == s.path :: t == s
    ensures OldHash(nodes, s.path) == Some(s.contentHash)
  {
    var last := nodes[|nodes| - 1];
    if last != s {
      OldHashIs(nodes[..|nodes| - 1], s);
    }
  }

  // A file is carried over exactly when it was parsed with this content before and
  // every method it holds is attached to a class.
  lemma UnchangedExactly(ix: Indexer, owner: string -> string, prev: Graph, files0: seq<File>, files: seq<File>,
                         f: File)
    requires IndexerOk(ix, owner) && DistinctPaths(files) && DistinctPaths(files0) && NodesExact(ix, prev, files0)
    requires f in files
    ensures Unchanged(ix, prev, files, f)
       <==> f in files0 && ix.parse(f.path, f.content).Some?
            && !HasOrphanMethod(ix.parse(f.path, f.content).value.symbols)
  {
    HashesLookup(ix, files, f);
    if Unchanged(ix, prev, files, f) {
      UnchangedSource(ix, owner, prev, files0, files, f);
    }
    if f in files0 && ix.parse(f.path, f.content).Some? {
      ParsedBefore(ix, owner, prev, files0, f);
    }
  }

  // What is stored of a file that was parsed with this content before.
  lemma ParsedBefore(ix: Indexer, owner: string -> string, prev: Graph, files0: seq<File>, f: File)
    requires IndexerOk(ix, owner) && DistinctPaths(files0) && NodesExact(ix, prev, files0)
    requires f in files0 && ix.parse(f.path, f.content).Some?
    ensures OldHash(prev.nodes, f.path) == Some(ix.hash(f.content))
    ensures f.path in MissingStructure(prev.nodes)
       <==> HasOrphanMethod(ix.parse(f.path, f.content).value.symbols)
  {
    var symbols := ix.parse(f.path, f.content).value.symbols;
    var file := FileSymbol(f.path, ix.hash(f.content));
    forall t ensures t in prev.nodes && t.path == f.path <==> t in FileSymbols(ix, f) {
      assert t in multiset(prev.nodes) <==> t in multiset(FullNodes(ix, files0));
      FullNodesMember(ix, owner, files0, t);
      FileSymbolsOwned(ix, owner, f);
    }
    assert file in FileSymbols(ix, f);
    OldHashIs(prev.nodes, file);
    if s :| s in symbols && s.kind == MethodKind && s.parentId.None? {
      assert s in FileSymbols(ix, f);
    }
  }

  // ---- Test edges -------------------------------------------------------------------

  // One `tests` edge per `references` or `imports` edge that leaves a test file.
  ghost predicate TestsExact(g: Graph) {
    forall e: Edge | e.kind == Tests ::
      multiset(g.edges)[e]
      == if IsTestPath(SourcePath(g.nodes, e))
         then multiset(g.edges)[e.(kind := References)] + multiset(g.edges)[e.(kind := Imports)] else 0
  }

  lemma OneTestEdge(nodes: seq<Symbol>, last: Edge, e: Edge)
    ensures multiset(TestEdge(nodes, last))[e] == TestsLike(nodes, [last], e)
  {
    assert SourcePath(nodes, last) == SourcePath(nodes, Edge(last.fromId, last.toId, Tests));
  }

  // How many `tests` edges like e the edges lead to.
  function TestsLike(nodes: seq<Symbol>, edges: seq<Edge>, e: Edge): nat {
    if e.kind == Tests && IsTestPath(SourcePath(nodes, e))
    then multiset(edges)[e.(kind := References)] + multiset(edges)[e.(kind := Imports)] else 0
  }

  lemma TestsLikeSnoc(nodes: seq<Symbol>, init: seq<Edge>, last: Edge, e: Edge)
    ensures TestsLike(nodes, init + [last], e) == TestsLike(nodes, init, e) + TestsLike(nodes, [last], e)
  {
  }

  lemma {:induction false} TestEdgeCount(nodes: seq<Symbol>, edges: seq<Edge>, e: Edge)
    ensures multiset(FlatMap(edges, TestEdgeAmong(nodes)))[e] == TestsLike(nodes, edges, e)
  {
    if edges != [] {
      var init, last := edges[..|edges| - 1], edges[|edges| - 1];
      TestEdgeCount(nodes, init, e);
      InitLast(edges);
      TestsLikeSnoc(nodes, init, last, e);
      OneTestEdge(nodes, last, e);
    }
  }

  // Counts of each kind of edge in a finished graph, from those before test detection.
  lemma FinishedCount(g: Graph, e: Edge)
    requires forall d | d in g.edges :: d.kind != Tests
    ensures multiset(WithTestEdges(g).edges)[e]
         == if e.kind != Tests then multiset(g.edges)[e]
            else if IsTestPath(SourcePath(g.nodes, e))
            then multiset(g.edges)[e.(kind := References)] + multiset(g.edges)[e.(kind := Imports)] else 0
  {
    TestEdgeCount(g.nodes, g.edges, e);
    assert e.kind == Tests ==> e !in multiset(g.edges);
  }

  lemma FindSameBag(a: seq<Symbol>, b: seq<Symbol>, id: string)
    requires DistinctIds(a) && DistinctIds(b) && multiset(a) == multiset(b)
    ensures Find(a, id) == Find(b, id)
  {
    SameBagSameLength(a, b);
    if Find(a, id).Some? {
      FindDistinct(b, Find(a, id).value);
    }
  }

  lemma FinishedSame(a: Graph, b: Graph)
    requires DistinctIds(a.nodes) && DistinctIds(b.nodes) && multiset(a.nodes) == multiset(b.nodes)
    requires forall e | e in a.edges || e in b.edges :: e.kind != Tests
    ensures SameGraph(WithTestEdges(a), WithTestEdges(b)) <==> multiset(a.edges) == multiset(b.edges)
  {
    var x, y := multiset(WithTestEdges(a).edges), multiset(WithTestEdges(b).edges);
    if multiset(a.edges) == multiset(b.edges) {
      forall e ensures x[e] == y[e] {
        FinishedCount(a, e);
        FinishedCount(b, e);
        FindSameBag(a.nodes, b.nodes, e.fromId);
      }
      SameCounts(x, y);
    }
    if x == y {
      forall e ensures multiset(a.edges)[e] == multiset(b.edges)[e] {
        FinishedCount(a, e);
        FinishedCount(b, e);
        assert e.kind == Tests ==> e !in multiset(a.edges) && e !in multiset(b.edges);
      }
      SameCounts(multiset(a.edges), multiset(b.edges));
    }
  }

  // ---- Fast form against slow form ------------------------------------------------------

  // The file's imports and calls lead to the same places among files0 and among files.
  ghost predicate LinksStable(ix: Indexer, files0: seq<File>, files: seq<File>, f: File)
    requires ix.parse(f.path, f.content).Some?
  {
    var p := ix.parse(f.path, f.content).value;
    multiset(FileEdges(ix, p, FullScope(ix, files0))) == multiset(FileEdges(ix, p, FullScope(ix, files)))
  }

  ghost predicate PreviousBuild(ix: Indexer, owner: string -> string, prev: Graph, files0: seq<File>) {
    && NodesExact(ix, prev, files0) && EdgesRooted(prev, owner)
    && SameGraph(prev, FullGraph(ix, files0))
  }

  lemma PreviousEdges(ix: Indexer, owner: string -> string, prev: Graph, files0: seq<File>, f: File, e: Edge)
    requires IndexerOk(ix, owner) && DistinctPaths(files0) && PreviousBuild(ix, owner, prev, files0)
    requires f in files0 && ix.parse(f.path, f.content).Some? && owner(e.fromId) == f.path && e.kind != Tests
    ensures multiset(prev.edges)[e]
         == multiset(FileEdges(ix, ix.parse(f.path, f.content).value, FullScope(ix, files0)))[e]
  {
    NoGraphRooted(owner);
    forall d | d in MergedGraph(ix, NO_GRAPH, files0).edges ensures d.kind != Tests {
      MergedEdgesLeave(ix, owner, NO_GRAPH, files0, d);
    }
    FinishedCount(MergedGraph(ix, NO_GRAPH, files0), e);
    FullEdgesOfFile(ix, owner, files0, f, e);
  }

  lemma NoGraphRooted(owner: string -> string)
    ensures EdgesRooted(NO_GRAPH, owner)
  {
  }

  lemma FileEdgesCountZero(ix: Indexer, owner: string -> string, p: ParsedSymbols, scope: Scope, e: Edge)
    requires ParsedOk(p, p.path, owner)
    requires owner(e.fromId) != p.path || e.kind == Tests
    ensures multiset(FileEdges(ix, p, scope))[e] == 0
  {
    if e in FileEdges(ix, p, scope) {
      FileEdgesLeave(ix, owner, p, scope, Imported(ix, p, scope), e);
      assert false;
    }
  }

  // An unchanged file keeps the links it had; a build from scratch finds those of now.
  lemma UnchangedCount(ix: Indexer, owner: string -> string, prev: Graph, files0: seq<File>, files: seq<File>,
                       f: File, e: Edge)
    requires IndexerOk(ix, owner) && DistinctPaths(files) && DistinctPaths(files0)
    requires PreviousBuild(ix, owner, prev, files0)
    requires Unchanged(ix, prev, files, f) && f.path == owner(e.fromId) && e.kind != Tests
    ensures ix.parse(f.path, f.content).Some?
    ensures var p := ix.parse(f.path, f.content).value;
        && multiset(MergedGraph(ix, prev, files).edges)[e] == multiset(FileEdges(ix, p, FullScope(ix, files0)))[e]
        && multiset(MergedGraph(ix, NO_GRAPH, files).edges)[e] == multiset(FileEdges(ix, p, FullScope(ix, files)))[e]
  {
    UnchangedSource(ix, owner, prev, files0, files, f);
    UnchangedFileEdges(ix, owner, prev, files, f, e);
    PreviousEdges(ix, owner, prev, files0, f, e);
    FullEdgesOfFile(ix, owner, files, f, e);
  }

  // The edges agree at e, unless e leaves an unchanged file whose links moved.
  lemma MergedCount(ix: Indexer, owner: string -> string, prev: Graph, files0: seq<File>, files: seq<File>, e: Edge)
    requires IndexerOk(ix, owner) && DistinctPaths(files) && DistinctPaths(files0)
    requires PreviousBuild(ix, owner, prev, files0)
    requires forall f | Unchanged(ix, prev, files, f) && f.path == owner(e.fromId) ::
        ix.parse(f.path, f.content).Some? && LinksStable(ix, files0, files, f)
    ensures multiset(MergedGraph(ix, prev, files).edges)[e] == multiset(MergedGraph(ix, NO_GRAPH, files).edges)[e]
  {
    if f :| f in files && f.path == owner(e.fromId) && e.kind != Tests {
      if Unchanged(ix, prev, files, f) {
        UnchangedCount(ix, owner, prev, files0, files, f, e);
      } else {
        ChangedFileEdges(ix, owner, prev, files0, files, f, e);
      }
    } else {
      MergedCountNone(ix, owner, prev, files, e);
      NoGraphRooted(owner);
      MergedCountNone(ix, owner, NO_GRAPH, files, e);
    }
  }

  lemma MergedCountNone(ix: Indexer, owner: string -> string, prev: Graph, files: seq<File>, e: Edge)
    requires IndexerOk(ix, owner) && DistinctPaths(files) && EdgesRooted(prev, owner)
    requires e.kind == Tests || forall f | f in files :: f.path != owner(e.fromId)
    ensures multiset(MergedGraph(ix, prev, files).edges)[e] == 0
  {
    var edges := MergedGraph(ix, prev, files).edges;
    if e in edges {
      MergedEdgesLeave(ix, owner, prev, files, e);
      assert false;
    }
    assert e !in multiset(edges);
  }

  // Reindexing on top of a full build of files0 gives the full build of files if
  // and only if no import or call of an unchanged file has moved.
  lemma IncrementalIsFull(ix: Indexer, owner: string -> string, prev: Graph, files0: seq<File>, files: seq<File>)
    requires IndexerOk(ix, owner) && DistinctPaths(files) && DistinctPaths(files0)
    requires PreviousBuild(ix, owner, prev, files0)
    ensures SameGraph(IncrementalGraph(ix, prev, files), FullGraph(ix, files))
       <==> forall f | Unchanged(ix, prev, files, f) ::
              ix.parse(f.path, f.content).Some? && LinksStable(ix, files0, files, f)
  {
    var a, b := MergedGraph(ix, prev, files), MergedGraph(ix, NO_GRAPH, files);
    NodesAgree(ix, owner, prev, files0, files);
    FullGraphNodes(ix, owner, files);
    NoGraphRooted(owner);
    forall e | e in a.edges || e in b.edges ensures e.kind != Tests {
      if e in a.edges { MergedEdgesLeave(ix, owner, prev, files, e); }
      if e in b.edges { MergedEdgesLeave(ix, owner, NO_GRAPH, files, e); }
    }
    FinishedSame(a, b);
    if forall f | Unchanged(ix, prev, files, f) ::
         ix.parse(f.path, f.content).Some? && LinksStable(ix, files0, files, f) {
      forall e ensures multiset(a.edges)[e] == multiset(b.edges)[e] {
        MergedCount(ix, owner, prev, files0, files, e);
      }
      SameCounts(multiset(a.edges), multiset(b.edges));
    }
    if multiset(a.edges) == multiset(b.edges) {
      forall f | Unchanged(ix, prev, files, f)
        ensures ix.parse(f.path, f.content).Some? && LinksStable(ix, files0, files, f)
      {
        SameEdgesStable(ix, owner, prev, files0, files, f);
      }
    }
  }

  lemma SameEdgesStable(ix: Indexer, owner: string -> string, prev: Graph, files0: seq<File>, files: seq<File>, f: File)
    requires IndexerOk(ix, owner) && DistinctPaths(files) && DistinctPaths(files0)
    requires PreviousBuild(ix, owner, prev, files0)
    requires multiset(MergedGraph(ix, prev, files).edges) == multiset(MergedGraph(ix, NO_GRAPH, files).edges)
    requires Unchanged(ix, prev, files, f)
    ensures ix.parse(f.path, f.content).Some? && LinksStable(ix, files0, files, f)
  {
    UnchangedSource(ix, owner, prev, files0, files, f);
    var p := ix.parse(f.path, f.content).value;
    var x, y := FileEdges(ix, p, FullScope(ix, files0)), FileEdges(ix, p, FullScope(ix, files));
    forall e: Edge ensures multiset(x)[e] == multiset(y)[e] {
      if owner(e.fromId) == f.path && e.kind != Tests {
        UnchangedFileEdges(ix, owner, prev, files, f, e);
        PreviousEdges(ix, owner, prev, files0, f, e);
        FullEdgesOfFile(ix, owner, files, f, e);
      } else {
        FileEdgesCountZero(ix, owner, p, FullScope(ix, files0), e);
        FileEdgesCountZero(ix, owner, p, FullScope(ix, files), e);
      }
    }
    SameCounts(multiset(x), multiset(y));
  }

  // Reindexing the very files of the previous build changes nothing.
  lemma ReindexIsIdentity(ix: Indexer, owner: string -> string, prev: Graph, files: seq<File>)
    requires IndexerOk(ix, owner) && DistinctPaths(files) && PreviousBuild(ix, owner, prev, files)
    ensures SameGraph(IncrementalGraph(ix, prev, files), prev)
  {
    forall f | Unchanged(ix, prev, files, f) ensures ix.parse(f.path, f.content).Some? {
      UnchangedSource(ix, owner, prev, files, files, f);
    }
    IncrementalIsFull(ix, owner, prev, files, files);
  }

  // It is enough that the set of parsed paths and the aliases are as before, and
  // that no name an unchanged file calls gained or lost a symbol.
  lemma UntouchedNamesSuffice(ix: Indexer, owner: string -> string, prev: Graph, files0: seq<File>, files: seq<File>)
    requires IndexerOk(ix, owner) && DistinctPaths(files) && DistinctPaths(files0)
    requires PreviousBuild(ix, owner, prev, files0)
    requires FullScope(ix, files0).known == FullScope(ix, files).known
    requires TsconfigPaths(ix, files0) == TsconfigPaths(ix, files)
    requires forall f, c | Unchanged(ix, prev, files, f) && ix.parse(f.path, f.content).Some?
                           && c in ix.parse(f.path, f.content).value.calls ::
        multiset(CandidatesFor(FullNodes(ix, files0), c.calleeName))
            == multiset(CandidatesFor(FullNodes(ix, files), c.calleeName))
    ensures SameGraph(IncrementalGraph(ix, prev, files), FullGraph(ix, files))
  {
    FullScopeIsFresh(ix, files);
    FullScopeIsFresh(ix, files0);
    forall f | Unchanged(ix, prev, files, f)
      ensures ix.parse(f.path, f.content).Some? && LinksStable(ix, files0, files, f)
    {
      UnchangedSource(ix, owner, prev, files0, files, f);
      var p := ix.parse(f.path, f.content).value;
      forall c | c in p.calls
        ensures multiset(CandidatesFor(FullScope(ix, files0).named, c.calleeName))
             == multiset(CandidatesFor(FullScope(ix, files).named, c.calleeName))
      {
        CandidatesExact(ix, owner, NO_GRAPH, [], files0, c.calleeName);
        CandidatesExact(ix, owner, NO_GRAPH, [], files, c.calleeName);
      }
      FileEdgesSame(ix, p, FullScope(ix, files0), FullScope(ix, files));
    }
    IncrementalIsFull(ix, owner, prev, files0, files);
  }
}
