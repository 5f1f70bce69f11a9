// Nodes of an incremental build: the same as those of a build from scratch.
module IncrementalNodes {
  import opened Lists
  import opened CodeGraph
  import opened GraphBuild
  import opened Incremental

  // ---- What is assumed of the parser, the resolver and the hash -------------

  // `owner` names the file an id belongs to: ids made for different files differ.
  ghost predicate ParsedOk(p: ParsedSymbols, path: string, owner: string -> string) {
    && p.path == path && owner(path) == path
    && (forall s | s in p.symbols ::
          s.path == path && owner(s.id) == path && s.id != path && s.kind != FileKind)
    && DistinctIds(p.symbols)
    && (forall c | c in p.calls && c.callerSymbolId.Some? ::
          exists s :: s in p.symbols && s.id == c.callerSymbolId.value)
  }

  ghost predicate IndexerOk(ix: Indexer, owner: string -> string) {
    && (forall path, content | ix.parse(path, content).Some? ::
          ParsedOk(ix.parse(path, content).value, path, owner))
    && (forall raw, path, known, aliases | ix.resolve(raw, path, known, aliases).Some? ::
          ix.resolve(raw, path, known, aliases).value in known)
    && (forall a, b | ix.hash(a) == ix.hash(b) :: a == b)
  }

  // ---- The symbols of one file, and of a list of files ----------------------

  function FileSymbols(ix: Indexer, f: File): seq<Symbol> {
    match ix.parse(f.path, f.content)
    case Some(p) => [FileSymbol(f.path, ix.hash(f.content))] + p.symbols
    case None => []
  }

  function SymbolsWith(ix: Indexer): File -> seq<Symbol> {
    (f: File) => FileSymbols(ix, f)
  }

  function FullNodes(ix: Indexer, files: seq<File>): seq<Symbol> {
    FlatMap(files, SymbolsWith(ix))
  }

  lemma FileSymbolsOwned(ix: Indexer, owner: string -> string, f: File)
    requires IndexerOk(ix, owner)
    ensures DistinctIds(FileSymbols(ix, f))
    ensures forall s | s in FileSymbols(ix, f) :: s.path == f.path && owner(s.id) == f.path
  {
  }

  lemma {:induction false} FullNodesMember(ix: Indexer, owner: string -> string, files: seq<File>, s: Symbol)
    requires IndexerOk(ix, owner)
    ensures s in FullNodes(ix, files) <==> exists f :: f in files && f.path == s.path && s in FileSymbols(ix, f)
  {
    FlatMapMember(files, SymbolsWith(ix), s);
    forall f | f in files && s in FileSymbols(ix, f) ensures f.path == s.path {
      FileSymbolsOwned(ix, owner, f);
    }
  }

  // A symbol occurs in the build of a list of files as often as in its own file.
  lemma FullNodesCount(ix: Indexer, owner: string -> string, files: seq<File>, f: File, s: Symbol)
    requires IndexerOk(ix, owner) && DistinctPaths(files)
    requires f in files && s.path == f.path
    ensures multiset(FullNodes(ix, files))[s] == multiset(FileSymbols(ix, f))[s]
  {
    var i :| 0 <= i < |files| && files[i] == f;
    forall j | 0 <= j < |files| && j != i ensures s !in FileSymbols(ix, files[j]) {
      FileSymbolsOwned(ix, owner, files[j]);
    }
    FlatMapCountAt(files, SymbolsWith(ix), s, i);
  }

  lemma FullNodesAbsent(ix: Indexer, owner: string -> string, files: seq<File>, s: Symbol)
    requires IndexerOk(ix, owner)
    requires forall f | f in files :: f.path != s.path
    ensures multiset(FullNodes(ix, files))[s] == 0
  {
    FullNodesMember(ix, owner, files, s);
    assert s !in FullNodes(ix, files);
  }

  lemma {:induction false} FullNodesDistinct(ix: Indexer, owner: string -> string, files: seq<File>)
    requires IndexerOk(ix, owner) && DistinctPaths(files)
    ensures DistinctIds(FullNodes(ix, files))
  {
    if files != [] {
      var init, last := files[..|files| - 1], files[|files| - 1];
      FullNodesDistinct(ix, owner, init);
      FileSymbolsOwned(ix, owner, last);
      forall s | s in FullNodes(ix, init) ensures owner(s.id) != last.path {
        FullNodesMember(ix, owner, init, s);
        var f :| f in init && f.path == s.path && s in FileSymbols(ix, f);
        FileSymbolsOwned(ix, owner, f);
      }
    }
  }

  lemma {:induction false} HashesLookup(ix: Indexer, files: seq<File>, f: File)
    requires DistinctPaths(files) && f in files
    ensures f.path in FileHashes(ix, files) && FileHashes(ix, files)[f.path] == ix.hash(f.content)
  {
    if files[|files| - 1] != f {
      HashesLookup(ix, files[..|files| - 1], f);
    }
  }

  lemma {:induction false} ParsedNodes(ix: Indexer, owner: string -> string, files: seq<File>,
                                       hashes: map<string, string>)
    requires IndexerOk(ix, owner)
    requires forall f | f in files :: f.path in hashes && hashes[f.path] == ix.hash(f.content)
    ensures FlatMap(ParseAll(ix, files), NodesWith(hashes)) == FullNodes(ix, files)
  {
    if files != [] {
      var init, last := files[..|files| - 1], files[|files| - 1];
      var nodesOf := NodesWith(hashes);
      ParsedNodes(ix, owner, init, hashes);
      FlatMapAppend(ParseAll(ix, init), ParsedFile(ix, last), nodesOf);
      if ix.parse(last.path, last.content).Some? {
        FlatMapOne(ix.parse(last.path, last.content).value, nodesOf);
        OneFileNodes(ix, owner, last, hashes);
      }
    }
  }

  lemma OneFileNodes(ix: Indexer, owner: string -> string, f: File, hashes: map<string, string>)
    requires IndexerOk(ix, owner) && f.path in hashes && hashes[f.path] == ix.hash(f.content)
    requires ix.parse(f.path, f.content).Some?
    ensures NodesOf(ix.parse(f.path, f.content).value, hashes) == FileSymbols(ix, f)
  {
  }

  // ---- Unchanged files -------------------------------------------------------

  // The old graph holds exactly the symbols of a build of `files`.
  ghost predicate NodesExact(ix: Indexer, prev: Graph, files: seq<File>) {
    DistinctIds(prev.nodes) && multiset(prev.nodes) == multiset(FullNodes(ix, files))
  }

  predicate Unchanged(ix: Indexer, prev: Graph, files: seq<File>, f: File) {
    f in files && !IsChanged(prev.nodes, FileHashes(ix, files), f)
  }

  lemma {:induction false} ChangedMember(ix: Indexer, prev: Graph, files: seq<File>, f: File)
    ensures f in ChangedFiles(ix, prev.nodes, files) <==> f in files && !Unchanged(ix, prev, files, f)
  {
    var hashes := FileHashes(ix, files);
    FilterMember(files, ChangedSince(prev.nodes, hashes), f);
  }

  lemma {:induction false} FilterDistinctPaths(files: seq<File>, keep: File -> bool)
    requires DistinctPaths(files)
    ensures DistinctPaths(Filter(files, keep))
  {
    if files != [] {
      var init, last := files[..|files| - 1], files[|files| - 1];
      FilterDistinctPaths(init, keep);
      forall f | f in Filter(init, keep) ensures f.path != last.path {
        FilterMember(init, keep, f);
      }
    }
  }

  lemma ChangedDistinct(ix: Indexer, prev: Graph, files: seq<File>)
    requires DistinctPaths(files)
    ensures DistinctPaths(ChangedFiles(ix, prev.nodes, files))
  {
    var hashes := FileHashes(ix, files);
    FilterDistinctPaths(files, ChangedSince(prev.nodes, hashes));
  }

  lemma UnchangedPathsExact(ix: Indexer, prev: Graph, files: seq<File>, f: File)
    requires DistinctPaths(files) && f in files
    ensures f.path in UnchangedPaths(ix, prev.nodes, files) <==> Unchanged(ix, prev, files, f)
  {
    var changed := ChangedFiles(ix, prev.nodes, files);
    ChangedMember(ix, prev, files, f);
    if f.path in (set g | g in changed :: g.path) {
      var g :| g in changed && g.path == f.path;
      ChangedMember(ix, prev, files, g);
      assert g == f;
    }
  }

  lemma {:induction false} OldHashFound(nodes: seq<Symbol>, path: string)
    requires OldHash(nodes, path).Some?
    ensures exists s ::
        s in nodes && s.kind == FileKind && s.path == path && s.contentHash == OldHash(nodes, path).value
  {
    var last := nodes[|nodes| - 1];
    if !(last.kind == FileKind && last.path == path) {
      OldHashFound(nodes[..|nodes| - 1], path);
    }
  }

  // A file that counts as unchanged was parsed, with this very content, when the
  // old graph was built.
  lemma UnchangedSource(ix: Indexer, owner: string -> string, prev: Graph, files0: seq<File>, files: seq<File>, f: File)
    requires IndexerOk(ix, owner) && DistinctPaths(files) && NodesExact(ix, prev, files0)
    requires Unchanged(ix, prev, files, f)
    ensures f in files0 && ix.parse(f.path, f.content).Some?
  {
    HashesLookup(ix, files, f);
    OldHashFound(prev.nodes, f.path);
    var s :| s in prev.nodes && s.kind == FileKind && s.path == f.path && s.contentHash == ix.hash(f.content);
    assert s in multiset(prev.nodes);
    assert s in multiset(FullNodes(ix, files0));
    FullNodesMember(ix, owner, files0, s);
    var g :| g in files0 && g.path == s.path && s in FileSymbols(ix, g);
    assert s == FileSymbol(g.path, ix.hash(g.content));
  }

  // ---- The node theorem --------------------------------------------------------

  lemma ReusedApart(ix: Indexer, owner: string -> string, prev: Graph, files0: seq<File>, files: seq<File>,
                    s: Symbol, t: Symbol)
    requires IndexerOk(ix, owner) && DistinctPaths(files) && NodesExact(ix, prev, files0)
    requires s in ReusedSymbols(prev, UnchangedPaths(ix, prev.nodes, files))
    requires t in FullNodes(ix, ChangedFiles(ix, prev.nodes, files))
    ensures s.id != t.id
  {
    var kept := UnchangedPaths(ix, prev.nodes, files);
    FilterMember(prev.nodes, IsWithin(kept), s);
    assert s in multiset(prev.nodes);
    assert s in multiset(FullNodes(ix, files0));
    FullNodesMember(ix, owner, files0, s);
    FullNodesMember(ix, owner, ChangedFiles(ix, prev.nodes, files), t);
    var g :| g in files0 && g.path == s.path && s in FileSymbols(ix, g);
    var f :| f in ChangedFiles(ix, prev.nodes, files) && f.path == t.path && t in FileSymbols(ix, f);
    FileSymbolsOwned(ix, owner, g);
    FileSymbolsOwned(ix, owner, f);
    assert f.path !in kept;
  }

  lemma DistinctIdsAppend(xs: seq<Symbol>, ys: seq<Symbol>)
    requires DistinctIds(xs) && DistinctIds(ys)
    requires forall s, t | s in xs && t in ys :: s.id != t.id
    ensures DistinctIds(xs + ys)
  {
  }

  lemma FreshNodes(ix: Indexer, owner: string -> string, prev: Graph, files0: seq<File>, files: seq<File>)
    requires IndexerOk(ix, owner) && DistinctPaths(files) && NodesExact(ix, prev, files0)
    ensures FreshGraph(ix, prev, files).nodes
         == ReusedSymbols(prev, UnchangedPaths(ix, prev.nodes, files))
             + FullNodes(ix, ChangedFiles(ix, prev.nodes, files))
  {
    var changed := ChangedFiles(ix, prev.nodes, files);
    var reused := ReusedSymbols(prev, UnchangedPaths(ix, prev.nodes, files));
    ReusedDistinct(prev, UnchangedPaths(ix, prev.nodes, files));
    ChangedNodes(ix, owner, prev, files);
    forall s, t | s in reused && t in FullNodes(ix, changed) ensures s.id != t.id {
      ReusedApart(ix, owner, prev, files0, files, s, t);
    }
    DistinctIdsAppend(reused, FullNodes(ix, changed));
    assert [] + reused == reused;
    PutAllDistinct([], reused);
    PutAllDistinct(reused, FullNodes(ix, changed));
  }

  lemma ChangedNodes(ix: Indexer, owner: string -> string, prev: Graph, files: seq<File>)
    requires IndexerOk(ix, owner) && DistinctPaths(files)
    ensures var changed := ChangedFiles(ix, prev.nodes, files);
        var hashes := FileHashes(ix, files);
        && FlatMap(ParseAll(ix, changed), NodesWith(hashes)) == FullNodes(ix, changed)
        && DistinctIds(FullNodes(ix, changed))
  {
    var changed := ChangedFiles(ix, prev.nodes, files);
    forall f | f in changed
      ensures f.path in FileHashes(ix, files) && FileHashes(ix, files)[f.path] == ix.hash(f.content)
    {
      ChangedMember(ix, prev, files, f);
      HashesLookup(ix, files, f);
    }
    ParsedNodes(ix, owner, changed, FileHashes(ix, files));
    ChangedDistinct(ix, prev, files);
    FullNodesDistinct(ix, owner, changed);
  }

  lemma {:induction false} FilterDistinctIds(nodes: seq<Symbol>, keep: Symbol -> bool)
    requires DistinctIds(nodes)
    ensures DistinctIds(Filter(nodes, keep))
  {
    if nodes != [] {
      var init, last := nodes[..|nodes| - 1], nodes[|nodes| - 1];
      FilterDistinctIds(init, keep);
      forall s | s in Filter(init, keep) ensures s.id != last.id {
        FilterMember(init, keep, s);
      }
    }
  }

  lemma ReusedDistinct(prev: Graph, kept: set<string>)
    requires DistinctIds(prev.nodes)
    ensures DistinctIds(ReusedSymbols(prev, kept))
  {
    FilterDistinctIds(prev.nodes, IsWithin(kept));
  }

  // The incremental graph has exactly the nodes of a build from scratch.
  lemma NodesAgree(ix: Indexer, owner: string -> string, prev: Graph, files0: seq<File>, files: seq<File>)
    requires IndexerOk(ix, owner) && DistinctPaths(files) && DistinctPaths(files0) && NodesExact(ix, prev, files0)
    ensures NodesExact(ix, IncrementalGraph(ix, prev, files), files)
  {
    var kept := UnchangedPaths(ix, prev.nodes, files);
    var changed := ChangedFiles(ix, prev.nodes, files);
    var nodes := IncrementalGraph(ix, prev, files).nodes;
    FreshNodes(ix, owner, prev, files0, files);
    forall s ensures multiset(nodes)[s] == multiset(FullNodes(ix, files))[s] {
      NodeCount(ix, owner, prev, files0, files, s);
    }
    SameCounts(multiset(nodes), multiset(FullNodes(ix, files)));
    DistinctIdsOfGraph(FreshGraph(ix, prev, files));
  }

  lemma DistinctIdsOfGraph(g: Graph)
    requires exists ns, ms :: g.nodes == PutAll(PutAll([], ns), ms)
    ensures DistinctIds(g.nodes)
  {
  }

  lemma NodeCount(ix: Indexer, owner: string -> string, prev: Graph, files0: seq<File>, files: seq<File>, s: Symbol)
    requires IndexerOk(ix, owner) && DistinctPaths(files) && DistinctPaths(files0) && NodesExact(ix, prev, files0)
    ensures multiset(ReusedSymbols(prev, UnchangedPaths(ix, prev.nodes, files)))[s]
          + multiset(FullNodes(ix, ChangedFiles(ix, prev.nodes, files)))[s]
         == multiset(FullNodes(ix, files))[s]
  {
    var kept := UnchangedPaths(ix, prev.nodes, files);
    var changed := ChangedFiles(ix, prev.nodes, files);
    FilterCount(prev.nodes, IsWithin(kept), s);
    ChangedDistinct(ix, prev, files);
    if f :| f in files && f.path == s.path {
      UnchangedPathsExact(ix, prev, files, f);
      FullNodesCount(ix, owner, files, f, s);
      ChangedMember(ix, prev, files, f);
      if f.path in kept {
        UnchangedSource(ix, owner, prev, files0, files, f);
        FullNodesCount(ix, owner, files0, f, s);
        FullNodesAbsent(ix, owner, changed, s);
      } else {
        FullNodesCount(ix, owner, changed, f, s);
      }
    } else {
      FullNodesAbsent(ix, owner, files, s);
      forall f | f in changed ensures f.path != s.path {
        ChangedMember(ix, prev, files, f);
      }
      FullNodesAbsent(ix, owner, changed, s);
    }
  }

  // Building from scratch, as a list.
  lemma FullGraphNodes(ix: Indexer, owner: string -> string, files: seq<File>)
    requires IndexerOk(ix, owner) && DistinctPaths(files)
    ensures NodesExact(ix, FullGraph(ix, files), files)
  {
    NodesAgree(ix, owner, NO_GRAPH, [], files);
  }
}
