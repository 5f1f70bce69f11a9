// Edges of an incremental build against those of a build from scratch.
module IncrementalEdges {
  import opened Lists
  import opened CodeGraph
  import opened GraphBuild
  import opened Incremental
  import opened IncrementalNodes

  // ---- The edges one file contributes -----------------------------------------

  function Imported(ix: Indexer, p: ParsedSymbols, scope: Scope): set<string> {
    set t | t in ImportTargets(ix, p, scope)
  }

  function FileEdges(ix: Indexer, p: ParsedSymbols, scope: Scope): seq<Edge> {
    DefinesEdges(p) + ImportEdges(ix, p, scope) + ReferenceEdges(p, scope, Imported(ix, p, scope))
  }

  ghost predicate DistinctParsed(parsed: seq<ParsedSymbols>) {
    forall i, j | 0 <= i < j < |parsed| :: parsed[i].path != parsed[j].path
  }

  ghost predicate AllParsedOk(parsed: seq<ParsedSymbols>, owner: string -> string) {
    forall p | p in parsed :: ParsedOk(p, p.path, owner)
  }

  lemma {:induction false} PreferredExact(ix: Indexer, parsed: seq<ParsedSymbols>, scope: Scope, p: ParsedSymbols)
    requires DistinctParsed(parsed) && p in parsed
    ensures PreferredFiles(ix, parsed, scope, p.path) == Imported(ix, p, scope)
  {
    if parsed[|parsed| - 1] != p {
      PreferredExact(ix, parsed[..|parsed| - 1], scope, p);
    }
  }

  // Every edge a file contributes leaves that file, and none is a `tests` edge.
  lemma FileEdgesLeave(ix: Indexer, owner: string -> string, p: ParsedSymbols, scope: Scope, preferred: set<string>,
                       e: Edge)
    requires ParsedOk(p, p.path, owner)
    requires e in DefinesEdges(p) || e in ImportEdges(ix, p, scope) || e in ReferenceEdges(p, scope, preferred)
    ensures owner(e.fromId) == p.path && e.kind != Tests
    ensures e.fromId == p.path || exists s :: s in p.symbols && s.id == e.fromId
    ensures e.kind == Defines <==> e in DefinesEdges(p)
  {
    FlatMapMember(p.symbols, DefinesEdge(p.path), e);
    FlatMapMember(ImportTargets(ix, p, scope), ImportsEdge(p.path), e);
    FlatMapMember(p.calls, EdgesOfCall(p, scope, preferred), e);
  }

  lemma EdgesCount(ix: Indexer, owner: string -> string, parsed: seq<ParsedSymbols>, scope: Scope, p: ParsedSymbols,
                   e: Edge)
    requires DistinctParsed(parsed) && AllParsedOk(parsed, owner)
    requires p in parsed && owner(e.fromId) == p.path
    ensures multiset(EdgesOf(ix, parsed, scope))[e] == multiset(FileEdges(ix, p, scope))[e]
  {
    var i :| 0 <= i < |parsed| && parsed[i] == p;
    forall j | 0 <= j < |parsed| && j != i
      ensures e !in DefinesEdges(parsed[j]) && e !in ImportEdges(ix, parsed[j], scope)
      ensures e !in ReferenceEdges(parsed[j], scope, PreferredFiles(ix, parsed, scope, parsed[j].path))
    {
      var q := parsed[j];
      if e in DefinesEdges(q) || e in ImportEdges(ix, q, scope)
         || e in ReferenceEdges(q, scope, PreferredFiles(ix, parsed, scope, q.path)) {
        FileEdgesLeave(ix, owner, q, scope, PreferredFiles(ix, parsed, scope, q.path), e);
        assert false;
      }
    }
    FlatMapCountAt(parsed, DefinesEdges, e, i);
    FlatMapCountAt(parsed, ImportsIn(ix, scope), e, i);
    FlatMapCountAt(parsed, ReferencesIn(ix, parsed, scope), e, i);
    PreferredExact(ix, parsed, scope, p);
  }

  // An edge of the graph comes from some parsed file.
  lemma EdgesMember(ix: Indexer, owner: string -> string, parsed: seq<ParsedSymbols>, scope: Scope, e: Edge)
    requires DistinctParsed(parsed) && AllParsedOk(parsed, owner) && e in EdgesOf(ix, parsed, scope)
    ensures exists p :: p in parsed && p.path == owner(e.fromId) && e in FileEdges(ix, p, scope)
  {
    FlatMapMember(parsed, DefinesEdges, e);
    FlatMapMember(parsed, ImportsIn(ix, scope), e);
    FlatMapMember(parsed, ReferencesIn(ix, parsed, scope), e);
    var p :| p in parsed && (e in DefinesEdges(p) || e in ImportEdges(ix, p, scope)
                             || e in ReferenceEdges(p, scope, PreferredFiles(ix, parsed, scope, p.path)));
    FileEdgesLeave(ix, owner, p, scope, PreferredFiles(ix, parsed, scope, p.path), e);
    PreferredExact(ix, parsed, scope, p);
    assert e in FileEdges(ix, p, scope);
  }

  // ---- Scopes that resolve alike -------------------------------------------------

  ghost predicate ScopesAgree(a: Scope, b: Scope, p: ParsedSymbols) {
    && a.known == b.known && a.aliases == b.aliases
    && forall c | c in p.calls ::
         multiset(CandidatesFor(a.named, c.calleeName)) == multiset(CandidatesFor(b.named, c.calleeName))
  }

  // Name resolution looks at the bag of candidates, not at their order.
  lemma ResolveCalleeSame(xs: seq<Symbol>, ys: seq<Symbol>, preferred: set<string>)
    requires multiset(xs) == multiset(ys)
    ensures ResolveCallee(xs, preferred) == ResolveCallee(ys, preferred)
  {
    var isLocal := IsWithin(preferred);
    FilterSameBag(xs, ys, isLocal);
    SameBagSameLength(xs, ys);
    SameBagSameLength(Filter(xs, isLocal), Filter(ys, isLocal));
    if |Filter(xs, isLocal)| == 1 {
      assert Filter(xs, isLocal)[0] in Filter(ys, isLocal);
    } else if |xs| == 1 {
      assert xs[0] in ys;
    }
  }

  lemma FileEdgesSame(ix: Indexer, p: ParsedSymbols, a: Scope, b: Scope)
    requires ScopesAgree(a, b, p)
    ensures FileEdges(ix, p, a) == FileEdges(ix, p, b)
  {
    FlatMapSame(p.imports, TargetIn(ix, p, a), TargetIn(ix, p, b));
    var preferred := Imported(ix, p, a);
    forall c | c in p.calls ensures CallEdges(p, a, preferred, c) == CallEdges(p, b, preferred, c) {
      ResolveCalleeSame(CandidatesFor(a.named, c.calleeName), CandidatesFor(b.named, c.calleeName), preferred);
    }
    FlatMapSame(p.calls, EdgesOfCall(p, a, preferred), EdgesOfCall(p, b, preferred));
  }

  // ---- The scope an incremental build resolves in ----------------------------------

  function FreshScope(ix: Indexer, prev: Graph, files: seq<File>): Scope {
    ScopeOf(ParseAll(ix, ChangedFiles(ix, prev.nodes, files)), TsconfigPaths(ix, files),
            ReusedSymbols(prev, UnchangedPaths(ix, prev.nodes, files)))
  }

  function FullScope(ix: Indexer, files: seq<File>): Scope {
    ScopeOf(ParseAll(ix, files), TsconfigPaths(ix, files), [])
  }

  lemma FullScopeIsFresh(ix: Indexer, files: seq<File>)
    requires DistinctPaths(files)
    ensures ChangedFiles(ix, [], files) == files
    ensures ReusedSymbols(NO_GRAPH, UnchangedPaths(ix, [], files)) == []
    ensures FreshScope(ix, NO_GRAPH, files) == FullScope(ix, files)
  {
    var hashes := FileHashes(ix, files);
    forall f | f in files ensures IsChanged([], hashes, f) {
      HashesLookup(ix, files, f);
    }
    FilterAll(files, ChangedSince([], hashes));
  }

  lemma ParsedMember(ix: Indexer, files: seq<File>, p: ParsedSymbols)
    ensures p in ParseAll(ix, files) <==> exists f :: f in files && ix.parse(f.path, f.content) == Some(p)
  {
    FlatMapMember(files, ParsedWith(ix), p);
    if f :| f in files && ix.parse(f.path, f.content) == Some(p) {
      assert p in ParsedFile(ix, f);
    }
  }

  lemma {:induction false} ParsedDistinct(ix: Indexer, owner: string -> string, files: seq<File>)
    requires IndexerOk(ix, owner) && DistinctPaths(files)
    ensures DistinctParsed(ParseAll(ix, files)) && AllParsedOk(ParseAll(ix, files), owner)
  {
    if files != [] {
      var init, last := files[..|files| - 1], files[|files| - 1];
      ParsedDistinct(ix, owner, init);
      forall p | p in ParseAll(ix, init) ensures p.path != last.path {
        ParsedMember(ix, init, p);
      }
    }
  }

  lemma KnownPaths(ix: Indexer, owner: string -> string, prev: Graph, files0: seq<File>, files: seq<File>, path: string)
    requires IndexerOk(ix, owner) && DistinctPaths(files) && NodesExact(ix, prev, files0)
    ensures path in FreshScope(ix, prev, files).known
       <==> exists f :: f in files && f.path == path && ix.parse(f.path, f.content).Some?
  {
    var kept := UnchangedPaths(ix, prev.nodes, files);
    var changed := ChangedFiles(ix, prev.nodes, files);
    var parsed := ParseAll(ix, changed);
    var reused := ReusedSymbols(prev, kept);
    if p :| p in parsed && p.path == path {
      ParsedMember(ix, changed, p);
      var f :| f in changed && ix.parse(f.path, f.content) == Some(p);
      ChangedMember(ix, prev, files, f);
    }
    if s :| s in reused && s.path == path {
      FilterMember(prev.nodes, IsWithin(kept), s);
      var f :| f in files && f.path == path;
      UnchangedPathsExact(ix, prev, files, f);
      UnchangedSource(ix, owner, prev, files0, files, f);
    }
    if f :| f in files && f.path == path && ix.parse(f.path, f.content).Some? {
      var p := ix.parse(f.path, f.content).value;
      ChangedMember(ix, prev, files, f);
      if f in changed {
        ParsedMember(ix, changed, p);
        assert p in parsed;
      } else {
        FileSymbolKept(ix, owner, prev, files0, files, f);
      }
    }
  }

  lemma FileSymbolKept(ix: Indexer, owner: string -> string, prev: Graph, files0: seq<File>, files: seq<File>, f: File)
    requires IndexerOk(ix, owner) && DistinctPaths(files) && NodesExact(ix, prev, files0)
    requires Unchanged(ix, prev, files, f)
    ensures FileSymbol(f.path, ix.hash(f.content)) in ReusedSymbols(prev, UnchangedPaths(ix, prev.nodes, files))
  {
    var kept := UnchangedPaths(ix, prev.nodes, files);
    var s := FileSymbol(f.path, ix.hash(f.content));
    UnchangedSource(ix, owner, prev, files0, files, f);
    assert s in FileSymbols(ix, f);
    FullNodesMember(ix, owner, files0, s);
    assert s in multiset(prev.nodes);
    UnchangedPathsExact(ix, prev, files, f);
    FilterMember(prev.nodes, IsWithin(kept), s);
  }

  // Apart from file symbols, the named symbols are the nodes.
  lemma {:induction false} ParsedSymbolCount(ix: Indexer, files: seq<File>, s: Symbol)
    requires s.kind != FileKind
    ensures multiset(FlatMap(ParseAll(ix, files), SymbolsOf))[s] == multiset(FullNodes(ix, files))[s]
  {
    if files != [] {
      var init, last := files[..|files| - 1], files[|files| - 1];
      ParsedSymbolCount(ix, init, s);
      FlatMapAppend(ParseAll(ix, init), ParsedFile(ix, last), SymbolsOf);
      SymbolsOfFile(ix, last, s);
    }
  }

  // But for the file itself, a file yields the symbols parsing it yields.
  lemma SymbolsOfFile(ix: Indexer, f: File, s: Symbol)
    requires s.kind != FileKind
    ensures multiset(FlatMap(ParsedFile(ix, f), SymbolsOf))[s] == multiset(FileSymbols(ix, f))[s]
  {
    if ix.parse(f.path, f.content).Some? {
      FlatMapOne(ix.parse(f.path, f.content).value, SymbolsOf);
    }
  }

  lemma NamedCount(ix: Indexer, owner: string -> string, prev: Graph, files0: seq<File>, files: seq<File>, s: Symbol)
    requires IndexerOk(ix, owner) && DistinctPaths(files) && DistinctPaths(files0) && NodesExact(ix, prev, files0)
    requires s.kind != FileKind
    ensures multiset(FreshScope(ix, prev, files).named)[s] == multiset(FullNodes(ix, files))[s]
  {
    ParsedSymbolCount(ix, ChangedFiles(ix, prev.nodes, files), s);
    NodeCount(ix, owner, prev, files0, files, s);
  }

  lemma CandidatesExact(ix: Indexer, owner: string -> string, prev: Graph, files0: seq<File>, files: seq<File>,
                        name: string)
    requires IndexerOk(ix, owner) && DistinctPaths(files) && DistinctPaths(files0) && NodesExact(ix, prev, files0)
    ensures multiset(CandidatesFor(FreshScope(ix, prev, files).named, name))
         == multiset(CandidatesFor(FullNodes(ix, files), name))
  {
    var a, b := FreshScope(ix, prev, files).named, FullNodes(ix, files);
    var candidate := IsCandidate(name);
    forall s ensures multiset(CandidatesFor(a, name))[s] == multiset(CandidatesFor(b, name))[s] {
      FilterCount(a, candidate, s);
      FilterCount(b, candidate, s);
      if s.kind != FileKind {
        NamedCount(ix, owner, prev, files0, files, s);
      }
    }
    SameCounts(multiset(CandidatesFor(a, name)), multiset(CandidatesFor(b, name)));
  }

  // An incremental build resolves every name and import as a full build does.
  lemma FreshScopeAgrees(ix: Indexer, owner: string -> string, prev: Graph, files0: seq<File>, files: seq<File>,
                         p: ParsedSymbols)
    requires IndexerOk(ix, owner) && DistinctPaths(files) && DistinctPaths(files0) && NodesExact(ix, prev, files0)
    ensures ScopesAgree(FreshScope(ix, prev, files), FullScope(ix, files), p)
  {
    FullScopeIsFresh(ix, files);
    var a, b := FreshScope(ix, prev, files), FullScope(ix, files);
    forall path ensures path in a.known <==> path in b.known {
      KnownPaths(ix, owner, prev, files0, files, path);
      KnownPaths(ix, owner, NO_GRAPH, [], files, path);
    }
    forall c | c in p.calls
      ensures multiset(CandidatesFor(a.named, c.calleeName)) == multiset(CandidatesFor(b.named, c.calleeName))
    {
      CandidatesExact(ix, owner, prev, files0, files, c.calleeName);
      CandidatesExact(ix, owner, NO_GRAPH, [], files, c.calleeName);
    }
  }

  // ---- Edges of the merged graph, file by file ---------------------------------------

  // In the build from scratch, a file contributes its edges and nothing else does.
  lemma FullEdgesOfFile(ix: Indexer, owner: string -> string, files: seq<File>, f: File, e: Edge)
    requires IndexerOk(ix, owner) && DistinctPaths(files)
    requires f in files && owner(e.fromId) == f.path
    ensures multiset(MergedGraph(ix, NO_GRAPH, files).edges)[e]
         == match ix.parse(f.path, f.content)
            case Some(p) => multiset(FileEdges(ix, p, FullScope(ix, files)))[e]
            case None => 0
  {
    FullScopeIsFresh(ix, files);
    ParsedDistinct(ix, owner, files);
    var parsed := ParseAll(ix, files);
    assert multiset(MergedGraph(ix, NO_GRAPH, files).edges)[e]
        == multiset(EdgesOf(ix, parsed, FullScope(ix, files)))[e];
    FreshEdgesOfFile(ix, owner, files, files, FullScope(ix, files), f, e);
  }

  lemma FreshEdgesOfFile(ix: Indexer, owner: string -> string, files: seq<File>, indexed: seq<File>, scope: Scope,
                         f: File, e: Edge)
    requires IndexerOk(ix, owner) && DistinctPaths(files) && DistinctPaths(indexed)
    requires forall g | g in indexed :: g in files
    requires f in files && owner(e.fromId) == f.path
    ensures multiset(EdgesOf(ix, ParseAll(ix, indexed), scope))[e]
         == if f !in indexed then 0
            else match ix.parse(f.path, f.content)
                 case Some(p) => multiset(FileEdges(ix, p, scope))[e]
                 case None => 0
  {
    var parsed := ParseAll(ix, indexed);
    ParsedDistinct(ix, owner, indexed);
    if f in indexed && ix.parse(f.path, f.content).Some? {
      var p := ix.parse(f.path, f.content).value;
      ParsedMember(ix, indexed, p);
      EdgesCount(ix, owner, parsed, scope, p, e);
    } else {
      NoEdgesOfFile(ix, owner, files, indexed, scope, f, e);
    }
  }

  lemma NoEdgesOfFile(ix: Indexer, owner: string -> string, files: seq<File>, indexed: seq<File>, scope: Scope,
                      f: File, e: Edge)
    requires IndexerOk(ix, owner) && DistinctPaths(files) && DistinctPaths(indexed)
    requires forall g | g in indexed :: g in files
    requires f in files && owner(e.fromId) == f.path && (f !in indexed || ix.parse(f.path, f.content).None?)
    ensures multiset(EdgesOf(ix, ParseAll(ix, indexed), scope))[e] == 0
  {
    var parsed := ParseAll(ix, indexed);
    ParsedDistinct(ix, owner, indexed);
    if e in EdgesOf(ix, parsed, scope) {
      EdgesMember(ix, owner, parsed, scope, e);
      var p :| p in parsed && p.path == owner(e.fromId);
      ParsedMember(ix, indexed, p);
      assert false;
    }
  }

  // Edges leaving a changed file are those of the build from scratch.
  lemma ChangedFileEdges(ix: Indexer, owner: string -> string, prev: Graph, files0: seq<File>, files: seq<File>,
                         f: File, e: Edge)
    requires IndexerOk(ix, owner) && DistinctPaths(files) && DistinctPaths(files0) && NodesExact(ix, prev, files0)
    requires EdgesRooted(prev, owner)
    requires f in files && !Unchanged(ix, prev, files, f) && owner(e.fromId) == f.path
    ensures multiset(MergedGraph(ix, prev, files).edges)[e] == multiset(MergedGraph(ix, NO_GRAPH, files).edges)[e]
  {
    var changed := ChangedFiles(ix, prev.nodes, files);
    ChangedMember(ix, prev, files, f);
    UnchangedPathsExact(ix, prev, files, f);
    CarriedCount(ix, owner, prev, files, e);
    ChangedInFiles(ix, prev, files);
    FreshEdgesOfFile(ix, owner, files, changed, FreshScope(ix, prev, files), f, e);
    FullEdgesOfFile(ix, owner, files, f, e);
    if ix.parse(f.path, f.content).Some? {
      var p := ix.parse(f.path, f.content).value;
      FreshScopeAgrees(ix, owner, prev, files0, files, p);
      FileEdgesSame(ix, p, FreshScope(ix, prev, files), FullScope(ix, files));
    }
  }

  lemma ChangedInFiles(ix: Indexer, prev: Graph, files: seq<File>)
    requires DistinctPaths(files)
    ensures forall g | g in ChangedFiles(ix, prev.nodes, files) :: g in files
    ensures DistinctPaths(ChangedFiles(ix, prev.nodes, files))
  {
    ChangedDistinct(ix, prev, files);
    forall g | g in ChangedFiles(ix, prev.nodes, files) ensures g in files {
      ChangedMember(ix, prev, files, g);
    }
  }

  // Every edge of the graph leaves one of its nodes, and that node lies in the
  // file its id belongs to.
  ghost predicate EdgesRooted(g: Graph, owner: string -> string) {
    && (forall e | e in g.edges :: Find(g.nodes, e.fromId).Some?)
    && (forall s | s in g.nodes :: owner(s.id) == s.path)
  }

  lemma CarriedCount(ix: Indexer, owner: string -> string, prev: Graph, files: seq<File>, e: Edge)
    requires EdgesRooted(prev, owner)
    ensures multiset(CarriedEdges(prev, UnchangedPaths(ix, prev.nodes, files)))[e]
         == if e.kind != Tests && owner(e.fromId) in UnchangedPaths(ix, prev.nodes, files)
            then multiset(prev.edges)[e] else 0
  {
    var kept := UnchangedPaths(ix, prev.nodes, files);
    FilterCount(prev.edges, CarriedFrom(prev, kept), e);
    assert e in prev.edges ==> SourcePath(prev.nodes, e) == owner(e.fromId);
    assert multiset(prev.edges)[e] > 0 ==> e in prev.edges;
  }

  // Edges leaving an unchanged file are those of the old graph.
  lemma UnchangedFileEdges(ix: Indexer, owner: string -> string, prev: Graph, files: seq<File>, f: File, e: Edge)
    requires IndexerOk(ix, owner) && DistinctPaths(files) && EdgesRooted(prev, owner)
    requires Unchanged(ix, prev, files, f) && owner(e.fromId) == f.path && e.kind != Tests
    ensures multiset(MergedGraph(ix, prev, files).edges)[e] == multiset(prev.edges)[e]
  {
    ChangedMember(ix, prev, files, f);
    UnchangedPathsExact(ix, prev, files, f);
    CarriedCount(ix, owner, prev, files, e);
    ChangedInFiles(ix, prev, files);
    FreshEdgesOfFile(ix, owner, files, ChangedFiles(ix, prev.nodes, files), FreshScope(ix, prev, files), f, e);
  }

  // No edge of the merged graph leaves anything but a listed file, or is a `tests` edge.
  lemma MergedEdgesLeave(ix: Indexer, owner: string -> string, prev: Graph, files: seq<File>, e: Edge)
    requires IndexerOk(ix, owner) && DistinctPaths(files) && EdgesRooted(prev, owner)
    requires e in MergedGraph(ix, prev, files).edges
    ensures e.kind != Tests && exists f :: f in files && f.path == owner(e.fromId)
  {
    if e in CarriedEdges(prev, UnchangedPaths(ix, prev.nodes, files)) {
      CarriedCount(ix, owner, prev, files, e);
      assert multiset(CarriedEdges(prev, UnchangedPaths(ix, prev.nodes, files)))[e] > 0;
    } else {
      ParsedEdgesLeave(ix, owner, prev, files, e);
    }
  }

  lemma ParsedEdgesLeave(ix: Indexer, owner: string -> string, prev: Graph, files: seq<File>, e: Edge)
    requires IndexerOk(ix, owner) && DistinctPaths(files)
    requires e in EdgesOf(ix, ParseAll(ix, ChangedFiles(ix, prev.nodes, files)), FreshScope(ix, prev, files))
    ensures e.kind != Tests && exists f :: f in files && f.path == owner(e.fromId)
  {
    var changed, scope := ChangedFiles(ix, prev.nodes, files), FreshScope(ix, prev, files);
    ChangedInFiles(ix, prev, files);
    ParsedDistinct(ix, owner, changed);
    EdgesMember(ix, owner, ParseAll(ix, changed), scope, e);
    var p :| p in ParseAll(ix, changed) && p.path == owner(e.fromId) && e in FileEdges(ix, p, scope);
    FileEdgesLeave(ix, owner, p, scope, Imported(ix, p, scope), e);
    ParsedMember(ix, changed, p);
  }
}
