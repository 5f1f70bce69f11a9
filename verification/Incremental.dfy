// Reindexing only what changed (code_graph/incremental.py).
module Incremental {
  import opened Lists
  import opened Strings
  import opened Sorting
  import opened CodeGraph
  import opened GraphBuild

  datatype File = File(path: string, content: string)

  datatype IncrementalResult = IncrementalResult(
    graph: Graph, reparsedFiles: nat, reusedFiles: nat, skippedFiles: nat, truncated: bool)

  ghost predicate DistinctPaths(files: seq<File>) {
    forall i, j | 0 <= i < j < |files| :: files[i].path != files[j].path
  }

  // ---- The file limit -----------------------------------------------------

  // key=lambda f: f["path"]
  predicate PathLe(f: File, g: File) {
    LexLe(f.path, g.path)
  }

  lemma PathOrder()
    ensures TotalOrder(PathLe)
  {
    forall f: File, g: File ensures Comparable(PathLe, f, g) {
      LexTotal(f.path, g.path);
    }
    forall f: File, g: File, h: File ensures Passes(PathLe, f, g, h) {
      if PathLe(f, g) && PathLe(g, h) { LexTransitive(f.path, g.path, h.path); }
    }
  }

  // In the order of their paths, and before whatever is left out.
  ghost predicate SmallestPaths(selected: seq<File>, files: seq<File>) {
    SortedBy(selected, PathLe) && exists rest :: LeftOut(selected, files, rest)
  }

  ghost predicate LeftOut(selected: seq<File>, files: seq<File>, rest: seq<File>) {
    multiset(selected) + multiset(rest) == multiset(files) && forall f, g | f in selected && g in rest :: PathLe(f, g)
  }

  lemma FrontIsSmallest(files: seq<File>, n: nat)
    requires n <= |files|
    ensures |SortBy(files, PathLe)| == |files| && SmallestPaths(SortBy(files, PathLe)[..n], files)
  {
    SortMembers(files, PathLe);
    SortBag(files, PathLe);
    PathOrder();
    SortSorts(files, PathLe);
    FrontOfSorted(SortBy(files, PathLe), files, n);
  }

  lemma FrontOfSorted(sorted: seq<File>, files: seq<File>, n: nat)
    requires n <= |sorted| && SortedBy(sorted, PathLe) && multiset(sorted) == multiset(files)
    ensures SmallestPaths(sorted[..n], files)
  {
    assert sorted == sorted[..n] + sorted[n..];
    assert LeftOut(sorted[..n], files, sorted[n..]);
  }

  // Only files within the limit are indexed.
  function SelectFiles(files: seq<File>, maxFiles: nat): (selected: seq<File>)
    ensures |files| <= maxFiles ==> selected == files
    ensures |files| > maxFiles ==> |selected| == maxFiles && SmallestPaths(selected, files)
  {
    if |files| > maxFiles then
      FrontIsSmallest(files, maxFiles);
      SortBy(files, PathLe)[..maxFiles]
    else files
  }

  // ---- What changed -------------------------------------------------------

  // old_hash_by_path, filled from the old file symbols in order
  function OldHash(nodes: seq<Symbol>, path: string): Option<string> {
    if nodes == [] then None
    else
      var last := nodes[|nodes| - 1];
      if last.kind == FileKind && last.path == path then Some(last.contentHash)
      else OldHash(nodes[..|nodes| - 1], path)
  }

  // file_hashes, filled from the files in order
  function FileHashes(ix: Indexer, files: seq<File>): map<string, string> {
    if files == [] then map[]
    else
      var last := files[|files| - 1];
      FileHashes(ix, files[..|files| - 1])[last.path := ix.hash(last.content)]
  }

  function MissingStructure(nodes: seq<Symbol>): set<string> {
    set s | s in nodes && s.kind == MethodKind && s.parentId.None? :: s.path
  }

  predicate IsChanged(nodes: seq<Symbol>, hashes: map<string, string>, f: File) {
    || f.path !in hashes
    || OldHash(nodes, f.path) != Some(hashes[f.path])
    || f.path in MissingStructure(nodes)
  }

  function ChangedSince(nodes: seq<Symbol>, hashes: map<string, string>): File -> bool {
    (f: File) => IsChanged(nodes, hashes, f)
  }

  function ChangedAmong(nodes: seq<Symbol>, hashes: map<string, string>, files: seq<File>): seq<File> {
    Filter(files, ChangedSince(nodes, hashes))
  }

  function ChangedFiles(ix: Indexer, nodes: seq<Symbol>, files: seq<File>): seq<File> {
    ChangedAmong(nodes, FileHashes(ix, files), files)
  }

  function UnchangedPaths(ix: Indexer, nodes: seq<Symbol>, files: seq<File>): set<string> {
    (set f | f in files :: f.path) - (set f | f in ChangedFiles(ix, nodes, files) :: f.path)
  }

  predicate EndsWith(text: string, suffix: string) {
    |suffix| <= |text| && text[|text| - |suffix|..] == suffix
  }

  predicate FirstTsconfig(files: seq<File>, i: nat) {
    i < |files| && EndsWith(files[i].path, "tsconfig.json")
    && forall j | 0 <= j < i :: !EndsWith(files[j].path, "tsconfig.json")
  }

  // The aliases of the first tsconfig.json in the list.
  function TsconfigPaths(ix: Indexer, files: seq<File>): (aliases: Aliases)
    ensures forall i | 0 <= i < |files| && FirstTsconfig(files, i) :: aliases == ix.loadAliases(files[i].content)
    ensures (forall f | f in files :: !EndsWith(f.path, "tsconfig.json")) ==> aliases == []
  {
    assert forall i | 0 < i < |files| && FirstTsconfig(files, i) :: FirstTsconfig(files[1..], i - 1);
    if files == [] then []
    else if EndsWith(files[0].path, "tsconfig.json") then ix.loadAliases(files[0].content)
    else TsconfigPaths(ix, files[1..])
  }

  function ParsedFile(ix: Indexer, f: File): seq<ParsedSymbols> {
    match ix.parse(f.path, f.content)
    case Some(p) => [p]
    case None => []
  }

  function ParsedWith(ix: Indexer): File -> seq<ParsedSymbols> {
    (f: File) => ParsedFile(ix, f)
  }

  // index_files: a file that fails to parse is skipped, the rest are kept
  function ParseAll(ix: Indexer, files: seq<File>): seq<ParsedSymbols> {
    FlatMap(files, ParsedWith(ix))
  }

  // ---- The incremental graph ----------------------------------------------

  const NO_GRAPH := Graph([], [], [])

  predicate Carried(prev: Graph, kept: set<string>, e: Edge) {
    e.kind != Tests && SourcePath(prev.nodes, e) in kept
  }

  function CarriedFrom(prev: Graph, kept: set<string>): Edge -> bool {
    (e: Edge) => Carried(prev, kept, e)
  }

  function CarriedEdges(prev: Graph, kept: set<string>): seq<Edge> {
    Filter(prev.edges, CarriedFrom(prev, kept))
  }

  function ReusedSymbols(prev: Graph, kept: set<string>): seq<Symbol> {
    Filter(prev.nodes, IsWithin(kept))
  }

  // The graph of the changed files, before anything is carried over.
  function FreshGraph(ix: Indexer, prev: Graph, files: seq<File>): Graph {
    GraphOf(ix, ParseAll(ix, ChangedFiles(ix, prev.nodes, files)), TsconfigPaths(ix, files), FileHashes(ix, files),
            ReusedSymbols(prev, UnchangedPaths(ix, prev.nodes, files)))
  }

  function MergedGraph(ix: Indexer, prev: Graph, files: seq<File>): Graph {
    var rebuilt := FreshGraph(ix, prev, files);
    Graph(rebuilt.nodes, rebuilt.edges + CarriedEdges(prev, UnchangedPaths(ix, prev.nodes, files)), [])
  }

  // Building against an empty old graph is building from scratch.
  function IncrementalGraph(ix: Indexer, prev: Graph, files: seq<File>): Graph {
    WithTestEdges(MergedGraph(ix, prev, files))
  }

  function FullGraph(ix: Indexer, files: seq<File>): Graph {
    IncrementalGraph(ix, NO_GRAPH, files)
  }

  // _merge_reused_edges
  method MergeReusedEdges(graph: Graph, prev: Graph, kept: set<string>) returns (merged: Graph)
    ensures merged == Graph(graph.nodes, graph.edges + CarriedEdges(prev, kept), [])
  {
    var mergedEdges := graph.edges;
    ghost var carried := CarriedFrom(prev, kept);
    for i := 0 to |prev.edges|
      invariant mergedEdges == graph.edges + Filter(prev.edges[..i], carried)
    {
      FilterTake(prev.edges, carried, i);
      var e := prev.edges[i];
      if e.kind != Tests {
        var source := Find(prev.nodes, e.fromId);
        var sourcePath := if source.Some? then source.value.path else e.fromId;
        if sourcePath in kept {
          mergedEdges := mergedEdges + [e];
        }
      }
    }
    assert prev.edges[..|prev.edges|] == prev.edges;
    merged := Graph(graph.nodes, mergedEdges, []);
  }

  // index_files
  method IndexFiles(ix: Indexer, files: seq<File>) returns (parsed: seq<ParsedSymbols>, skipped: nat)
    ensures parsed == ParseAll(ix, files)
    ensures |parsed| + skipped == |files|
  {
    parsed, skipped := [], 0;
    ghost var parse := ParsedWith(ix);
    for i := 0 to |files|
      invariant parsed == FlatMap(files[..i], parse)
      invariant |parsed| + skipped == i
    {
      FlatMapTake(files, parse, i);
      var p := ix.parse(files[i].path, files[i].content);
      if p.Some? {
        parsed := parsed + [p.value];
      } else {
        skipped := skipped + 1;
      }
    }
    assert files[..|files|] == files;
  }

  // The old content hash of every file that has a file symbol.
  method OldHashes(nodes: seq<Symbol>) returns (hashByPath: map<string, string>)
    ensures forall path :: OldHash(nodes, path) == if path in hashByPath then Some(hashByPath[path]) else None
  {
    hashByPath := map[];
    for i := 0 to |nodes|
      invariant forall path ::
          OldHash(nodes[..i], path) == if path in hashByPath then Some(hashByPath[path]) else None
    {
      assert nodes[..i + 1][..i] == nodes[..i];
      if nodes[i].kind == FileKind {
        hashByPath := hashByPath[nodes[i].path := nodes[i].contentHash];
      }
    }
    assert nodes[..|nodes|] == nodes;
  }

  // The body of build_incremental once the file limit has been applied.
  method Reindex(ix: Indexer, oldGraph: Option<Graph>, files: seq<File>)
    returns (graph: Graph, reparsed: nat, reused: nat, skipped: nat)
    ensures graph == IncrementalGraph(ix, oldGraph.GetOr(NO_GRAPH), files)
    ensures reparsed + skipped == |ChangedFiles(ix, oldGraph.GetOr(NO_GRAPH).nodes, files)|
    ensures reused == |UnchangedPaths(ix, oldGraph.GetOr(NO_GRAPH).nodes, files)|
  {
    ghost var prev := oldGraph.GetOr(NO_GRAPH);
    var hashes := FileHashes(ix, files);
    var changed := DetectChanged(oldGraph, hashes, files);
    var kept := (set f | f in files :: f.path) - (set f | f in changed :: f.path);
    assert kept == UnchangedPaths(ix, prev.nodes, files);
    var parsed, skippedFiles := IndexFiles(ix, changed);
    var reusedSymbols := if oldGraph.Some? then ReusedSymbols(oldGraph.value, kept) else [];
    assert reusedSymbols == ReusedSymbols(prev, kept);
    graph := BuildGraph(ix, parsed, TsconfigPaths(ix, files), hashes, reusedSymbols);
    assert graph == FreshGraph(ix, prev, files);
    graph := Merge(ix, graph, oldGraph, kept, files);
    graph := DetectTestEdges(graph);
    reparsed, reused, skipped := |parsed|, |kept|, skippedFiles;
  }

  method Merge(ghost ix: Indexer, graph: Graph, oldGraph: Option<Graph>, kept: set<string>, ghost files: seq<File>)
    returns (merged: Graph)
    requires graph == FreshGraph(ix, oldGraph.GetOr(NO_GRAPH), files)
    requires kept == UnchangedPaths(ix, oldGraph.GetOr(NO_GRAPH).nodes, files)
    ensures merged == MergedGraph(ix, oldGraph.GetOr(NO_GRAPH), files)
  {
    if oldGraph.Some? {
      merged := MergeReusedEdges(graph, oldGraph.value, kept);
    } else {
      assert CarriedEdges(NO_GRAPH, kept) == [];
      assert graph.edges + [] == graph.edges;
      merged := graph;
    }
  }

  // build_incremental, given the graph looked up for the previous build (None
  // when there is none)
  method BuildIncremental(ix: Indexer, oldGraph: Option<Graph>, allFiles: seq<File>, maxFiles: nat)
    returns (result: IncrementalResult)
    ensures result.graph == IncrementalGraph(ix, oldGraph.GetOr(NO_GRAPH), SelectFiles(allFiles, maxFiles))
    ensures result.reparsedFiles + result.skippedFiles
         == |ChangedFiles(ix, oldGraph.GetOr(NO_GRAPH).nodes, SelectFiles(allFiles, maxFiles))|
    ensures result.reusedFiles == |UnchangedPaths(ix, oldGraph.GetOr(NO_GRAPH).nodes, SelectFiles(allFiles, maxFiles))|
    ensures result.truncated <==> |allFiles| > maxFiles
  {
    var graph, reparsed, reused, skipped := Reindex(ix, oldGraph, SelectFiles(allFiles, maxFiles));
    result := IncrementalResult(graph, reparsed, reused, skipped, |allFiles| > maxFiles);
  }

  method DetectChanged(oldGraph: Option<Graph>, hashes: map<string, string>, files: seq<File>)
    returns (changed: seq<File>)
    ensures changed == ChangedAmong(oldGraph.GetOr(NO_GRAPH).nodes, hashes, files)
  {
    var oldHashes: map<string, string> := map[];
    var missing: set<string> := {};
    if oldGraph.Some? {
      oldHashes := OldHashes(oldGraph.value.nodes);
      missing := MissingStructure(oldGraph.value.nodes);
    }
    changed := SplitChanged(files, hashes, oldHashes, missing, oldGraph.GetOr(NO_GRAPH).nodes);
  }

  method SplitChanged(files: seq<File>, hashes: map<string, string>, oldHashes: map<string, string>,
                      missing: set<string>, ghost oldNodes: seq<Symbol>) returns (changed: seq<File>)
    requires forall path :: OldHash(oldNodes, path) == if path in oldHashes then Some(oldHashes[path]) else None
    requires missing == MissingStructure(oldNodes)
    ensures changed == ChangedAmong(oldNodes, hashes, files)
  {
    changed := [];
    ghost var isChanged := ChangedSince(oldNodes, hashes);
    for i := 0 to |files|
      invariant changed == Filter(files[..i], isChanged)
    {
      FilterTake(files, isChanged, i);
      var f := files[i];
      var oldHash := if f.path in oldHashes then Some(oldHashes[f.path]) else None;
      var hash := if f.path in hashes then Some(hashes[f.path]) else None;
      if hash.None? || oldHash != hash || f.path in missing {
        changed := changed + [f];
      }
    }
    assert files[..|files|] == files;
  }
}
