// The directory overview and its drill-down (code_graph/viz.py).
module DirectoryTree {
  import opened Lists
  import opened CodeGraph
  import opened Paths
  import opened ComponentCut
  import opened ComponentSelection
  import opened Neighborhood

  const SELF_SUFFIX := "::__files__"

  // A module node; its id is "module::" followed by the bucket.
  datatype VizModule = VizModule(bucket: string, count: nat)

  datatype ModuleEdge = ModuleEdge(source: string, target: string, kind: EdgeKind)

  datatype Expansion =
    | Modules(modules: seq<VizModule>, moduleEdges: set<ModuleEdge>)
    | Symbols(symbols: seq<Symbol>, edges: seq<Edge>)

  // directory.endswith(SELF_SUFFIX)
  predicate Tagged(directory: string) {
    |directory| >= |SELF_SUFFIX| && directory[|directory| - |SELF_SUFFIX|..] == SELF_SUFFIX
  }

  function Untag(directory: string): string
    requires Tagged(directory)
  {
    directory[..|directory| - |SELF_SUFFIX|]
  }

  // directory.count("/")
  function CountSlashes(directory: string): nat {
    if directory == "" then 0 else (if directory[0] == '/' then 1 else 0) + CountSlashes(directory[1..])
  }

  // "/".join(parts[:depth]): the text up to its depth-th slash, all of it if it has fewer
  function PrefixAtDepth(directory: string, depth: nat): string {
    if directory == "" then ""
    else if directory[0] == '/' then (if depth <= 1 then "" else "/" + PrefixAtDepth(directory[1..], depth - 1))
    else [directory[0]] + PrefixAtDepth(directory[1..], depth)
  }

  // ---- The overview -------------------------------------------------------------------

  function WithFiles(nodes: seq<Symbol>, d: string): set<VizModule> {
    {VizModule(d, Weight(nodes, d))}
    + (if Children(Dirs(nodes), d) != {} && OwnSet(nodes, d) != {}
       then {VizModule(d + SELF_SUFFIX, |OwnSet(nodes, d)|)} else {})
  }

  // Every directory with the size of its subtree, and the files of those that
  // have both files and subdirectories.
  function Overview(nodes: seq<Symbol>): set<VizModule> {
    set d, m | d in Dirs(nodes) && m in WithFiles(nodes, d) :: m
  }

  // _serialize_directory_tree
  method SerializeDirectoryTree(nodes: seq<Symbol>) returns (modules: seq<VizModule>)
    requires DistinctIds(nodes)
    ensures forall m :: m in modules <==> m in Overview(nodes)
  {
    var ownCount := OwnCounts(nodes);
    var allDirs := ExpandDirectories(ownCount.Keys);
    LeavesAreOwners(nodes, ownCount);
    var childrenOf := ChildrenMap(allDirs);
    var counter := new SubtreeCounter(nodes, ownCount, childrenOf);
    modules := [];
    var rest := allDirs;
    while rest != {}
      invariant counter.Valid() && counter.nodes == nodes && counter.children == childrenOf
          && counter.ownCounts == ownCount
      invariant rest <= allDirs
      invariant forall m :: m in modules <==> exists d :: d in allDirs && d !in rest && m in WithFiles(nodes, d)
      decreases |rest|
    {
      var directory :| directory in rest;
      var found := ModulesOf(counter, directory);
      modules, rest := modules + found, rest - {directory};
    }
  }

  // The nodes of one directory.
  method ModulesOf(counter: SubtreeCounter, directory: string) returns (modules: seq<VizModule>)
    requires counter.Valid() && directory in counter.children
    modifies counter`cache
    ensures counter.Valid()
    ensures forall m :: m in modules <==> m in WithFiles(counter.nodes, directory)
  {
    HasOwn(counter.ownCounts, counter.nodes, directory);
    WeightSplits(counter.nodes, directory);
    if counter.children[directory] == {} {
      assert BelowAny(counter.nodes, {}) == {};
      return [VizModule(directory, if directory in counter.ownCounts then counter.ownCounts[directory] else 0)];
    }
    var count := counter.Subtree(directory);
    modules := [VizModule(directory, count)];
    if directory in counter.ownCounts {
      modules := modules + [VizModule(directory + SELF_SUFFIX, counter.ownCounts[directory])];
    }
  }

  // ---- Drilling down ------------------------------------------------------------------------

  // The bucket a symbol falls into when a directory is expanded.
  function RawBucket(directory: string, s: Symbol): Option<string> {
    var leaf := DirectoryOf(s.path);
    if leaf == directory then Some(directory + SELF_SUFFIX)
    else if directory + "/" <= leaf then Some(PrefixAtDepth(leaf, CountSlashes(directory) + 2))
    else None
  }

  predicate InChild(directory: string, s: Symbol) {
    RawBucket(directory, s).Some? && !Tagged(RawBucket(directory, s).value)
  }

  predicate HasChildren(directory: string, nodes: seq<Symbol>) {
    exists s | s in nodes :: InChild(directory, s)
  }

  predicate HasOwnSymbols(directory: string, nodes: seq<Symbol>) {
    exists s | s in nodes :: DirectoryOf(s.path) == directory
  }

  // Without own symbols, tagged buckets are dropped.
  function Bucket(directory: string, hasOwn: bool): Symbol -> seq<string> {
    (s: Symbol) =>
      var b := RawBucket(directory, s);
      if b.None? || (!hasOwn && Tagged(b.value)) then [] else [b.value]
  }

  function Buckets(directory: string, nodes: seq<Symbol>): seq<string> {
    FlatMap(nodes, Bucket(directory, HasOwnSymbols(directory, nodes)))
  }

  // counts[bucket] = counts.get(bucket, 0) + 1
  function Tally(modules: seq<VizModule>, bucket: string): seq<VizModule> {
    if modules == [] then [VizModule(bucket, 1)]
    else if modules[0].bucket == bucket then [VizModule(bucket, modules[0].count + 1)] + modules[1..]
    else [modules[0]] + Tally(modules[1..], bucket)
  }

  function TallyAll(buckets: seq<string>): seq<VizModule> {
    if buckets == [] then [] else Tally(TallyAll(buckets[..|buckets| - 1]), buckets[|buckets| - 1])
  }

  // The bucket of a symbol id; the nodes have distinct ids.
  function BucketOfId(directory: string, hasOwn: bool, nodes: seq<Symbol>, id: string): seq<string> {
    var found := Find(nodes, id);
    if found.None? then [] else Bucket(directory, hasOwn)(found.value)
  }

  predicate Crosses(directory: string, hasOwn: bool, nodes: seq<Symbol>, e: Edge) {
    && e.kind != Defines
    && BucketOfId(directory, hasOwn, nodes, e.fromId) != []
    && BucketOfId(directory, hasOwn, nodes, e.toId) != []
    && BucketOfId(directory, hasOwn, nodes, e.fromId) != BucketOfId(directory, hasOwn, nodes, e.toId)
  }

  function Crossing(directory: string, hasOwn: bool, nodes: seq<Symbol>, e: Edge): ModuleEdge
    requires Crosses(directory, hasOwn, nodes, e)
  {
    ModuleEdge(BucketOfId(directory, hasOwn, nodes, e.fromId)[0], BucketOfId(directory, hasOwn, nodes, e.toId)[0],
        e.kind)
  }

  function CrossingEdges(directory: string, hasOwn: bool, g: Graph, edges: seq<Edge>): set<ModuleEdge> {
    set e | e in edges && Crosses(directory, hasOwn, g.nodes, e) :: Crossing(directory, hasOwn, g.nodes, e)
  }

  function InDirectory(directory: string): Symbol -> bool {
    (s: Symbol) => DirectoryOf(s.path) == directory
  }

  // _expand_leaf_directory; an edge of any kind may be shown
  function LeafExpansion(g: Graph, directory: string): Expansion {
    var ids := set s | s in g.nodes && DirectoryOf(s.path) == directory :: s.id;
    Symbols(Filter(g.nodes, InDirectory(directory)), Filter(g.edges, JoinsAmong(ids)))
  }

  function ModuleExpansion(g: Graph, directory: string): Expansion {
    Modules(TallyAll(Buckets(directory, g.nodes)),
        CrossingEdges(directory, HasOwnSymbols(directory, g.nodes), g, g.edges))
  }

  function Expanded(g: Graph, directory: string): Expansion {
    if Tagged(directory) then LeafExpansion(g, Untag(directory))
    else if !HasChildren(directory, g.nodes) then LeafExpansion(g, directory)
    else ModuleExpansion(g, directory)
  }

  // ---- The dictionary bucket_of ------------------------------------------------------------

  function GetBucket(bucketOf: map<string, string>, id: string): seq<string> {
    if id in bucketOf then [bucketOf[id]] else []
  }

  ghost predicate BucketsById(bucketOf: map<string, string>, directory: string, hasOwn: bool, nodes: seq<Symbol>) {
    forall id: string :: GetBucket(bucketOf, id) == BucketOfId(directory, hasOwn, nodes, id)
  }

  lemma {:induction false} FindSnoc(nodes: seq<Symbol>, s: Symbol, id: string)
    ensures Find(nodes + [s], id)
         == if Find(nodes, id).Some? then Find(nodes, id) else if s.id == id then Some(s) else None
  {
    if nodes == [] {
      assert nodes + [s] == [s];
    } else {
      assert (nodes + [s])[1..] == nodes[1..] + [s];
      FindSnoc(nodes[1..], s, id);
    }
  }

  // bucket_of after one more symbol, whose id is new.
  function PutBucket(bucketOf: map<string, string>, directory: string, s: Symbol): map<string, string> {
    var b := RawBucket(directory, s);
    if b.Some? then bucketOf[s.id := b.value] else bucketOf
  }

  lemma BucketNext(bucketOf: map<string, string>, directory: string, nodes: seq<Symbol>, s: Symbol)
    requires BucketsById(bucketOf, directory, true, nodes) && forall t | t in nodes :: t.id != s.id
    ensures BucketsById(PutBucket(bucketOf, directory, s), directory, true, nodes + [s])
  {
    var next := PutBucket(bucketOf, directory, s);
    forall id: string ensures GetBucket(next, id) == BucketOfId(directory, true, nodes + [s], id) {
      FindSnoc(nodes, s, id);
      assert GetBucket(bucketOf, id) == BucketOfId(directory, true, nodes, id);
    }
  }

  lemma NewId(nodes: seq<Symbol>, i: nat)
    requires DistinctIds(nodes) && i < |nodes|
    ensures forall t | t in nodes[..i] :: t.id != nodes[i].id
    ensures nodes[..i + 1] == nodes[..i] + [nodes[i]]
  {
  }

  lemma OneMoreSymbol(directory: string, nodes: seq<Symbol>, s: Symbol)
    ensures HasOwnSymbols(directory, nodes + [s])
        <==> HasOwnSymbols(directory, nodes) || DirectoryOf(s.path) == directory
    ensures HasChildren(directory, nodes + [s]) <==> HasChildren(directory, nodes) || InChild(directory, s)
  {
    assert forall t :: t in nodes + [s] <==> t in nodes || t == s;
  }

  lemma TaggedSelf(directory: string)
    ensures Tagged(directory + SELF_SUFFIX) && Untag(directory + SELF_SUFFIX) == directory
  {
  }

  ghost predicate Assigned(bucketOf: map<string, string>, hasOwn: bool, hasChildren: bool, directory: string,
                           nodes: seq<Symbol>)
  {
    && BucketsById(bucketOf, directory, true, nodes)
    && hasOwn == HasOwnSymbols(directory, nodes) && hasChildren == HasChildren(directory, nodes)
  }

  lemma AssignNext(bucketOf: map<string, string>, hasOwn: bool, hasChildren: bool, directory: string,
                   nodes: seq<Symbol>, i: nat)
    requires DistinctIds(nodes) && i < |nodes| && Assigned(bucketOf, hasOwn, hasChildren, directory, nodes[..i])
    ensures Assigned(PutBucket(bucketOf, directory, nodes[i]), hasOwn || DirectoryOf(nodes[i].path) == directory,
                     hasChildren || InChild(directory, nodes[i]), directory, nodes[..i + 1])
  {
    NewId(nodes, i);
    BucketNext(bucketOf, directory, nodes[..i], nodes[i]);
    OneMoreSymbol(directory, nodes[..i], nodes[i]);
  }

  // bucket_of, has_own_symbols and has_children
  method AssignBuckets(directory: string, nodes: seq<Symbol>)
    returns (bucketOf: map<string, string>, hasOwn: bool, hasChildren: bool)
    requires DistinctIds(nodes)
    ensures Assigned(bucketOf, hasOwn, hasChildren, directory, nodes)
  {
    bucketOf, hasOwn, hasChildren := map[], false, false;
    for i := 0 to |nodes|
      invariant Assigned(bucketOf, hasOwn, hasChildren, directory, nodes[..i])
    {
      AssignNext(bucketOf, hasOwn, hasChildren, directory, nodes, i);
      bucketOf, hasOwn, hasChildren := AssignOne(bucketOf, hasOwn, hasChildren, directory, nodes[i]);
    }
    assert nodes[..|nodes|] == nodes;
  }

  // The body of the loop.
  method AssignOne(bucketOf: map<string, string>, hasOwn: bool, hasChildren: bool, directory: string, s: Symbol)
    returns (bucketOf': map<string, string>, hasOwn': bool, hasChildren': bool)
    ensures bucketOf' == PutBucket(bucketOf, directory, s)
    ensures hasOwn' == (hasOwn || DirectoryOf(s.path) == directory)
        && hasChildren' == (hasChildren || InChild(directory, s))
  {
    bucketOf', hasOwn', hasChildren' := bucketOf, hasOwn, hasChildren;
    var childDepth := CountSlashes(directory) + 2;
    var leaf := DirectoryOf(s.path);
    TaggedSelf(directory);
    if leaf == directory {
      hasOwn' := true;
      bucketOf' := bucketOf'[s.id := directory + SELF_SUFFIX];
    } else if directory + "/" <= leaf {
      bucketOf' := bucketOf'[s.id := PrefixAtDepth(leaf, childDepth)];
      hasChildren' := hasChildren' || !Tagged(PrefixAtDepth(leaf, childDepth));
    }
  }

  // Without own symbols, the entries with a tagged bucket go.
  method DropTagged(bucketOf: map<string, string>, directory: string, hasOwn: bool, ghost nodes: seq<Symbol>)
    returns (kept: map<string, string>)
    requires BucketsById(bucketOf, directory, true, nodes)
    ensures BucketsById(kept, directory, hasOwn, nodes)
  {
    kept := if hasOwn then bucketOf else map id | id in bucketOf && !Tagged(bucketOf[id]) :: bucketOf[id];
    forall id: string ensures GetBucket(kept, id) == BucketOfId(directory, hasOwn, nodes, id) {
      assert GetBucket(bucketOf, id) == BucketOfId(directory, true, nodes, id);
    }
  }

  // _build_module_graph: the counts of the buckets. The dictionary holds the
  // symbols in the order of the nodes.
  method CountBuckets(bucketOf: map<string, string>, ghost directory: string, ghost hasOwn: bool, nodes: seq<Symbol>)
    returns (modules: seq<VizModule>)
    requires DistinctIds(nodes) && BucketsById(bucketOf, directory, hasOwn, nodes)
    ensures modules == TallyAll(FlatMap(nodes, Bucket(directory, hasOwn)))
  {
    modules := [];
    for i := 0 to |nodes|
      invariant modules == TallyAll(FlatMap(nodes[..i], Bucket(directory, hasOwn)))
    {
      TallyNext(bucketOf, directory, hasOwn, nodes, i);
      if nodes[i].id in bucketOf {
        modules := Tally(modules, bucketOf[nodes[i].id]);
      }
    }
    assert nodes[..|nodes|] == nodes;
  }

  lemma TallyNext(bucketOf: map<string, string>, directory: string, hasOwn: bool, nodes: seq<Symbol>, i: nat)
    requires DistinctIds(nodes) && BucketsById(bucketOf, directory, hasOwn, nodes) && i < |nodes|
    ensures (var f := Bucket(directory, hasOwn);
             TallyAll(FlatMap(nodes[..i + 1], f))
             == if nodes[i].id in bucketOf then Tally(TallyAll(FlatMap(nodes[..i], f)), bucketOf[nodes[i].id])
                else TallyAll(FlatMap(nodes[..i], f)))
  {
    var f := Bucket(directory, hasOwn);
    FlatMapTake(nodes, f, i);
    FindDistinct(nodes, nodes[i]);
    assert GetBucket(bucketOf, nodes[i].id) == f(nodes[i]);
    if nodes[i].id in bucketOf {
      TallySnoc(FlatMap(nodes[..i], f), bucketOf[nodes[i].id]);
    } else {
      assert FlatMap(nodes[..i], f) + [] == FlatMap(nodes[..i], f);
    }
  }

  lemma TallySnoc(buckets: seq<string>, b: string)
    ensures TallyAll(buckets + [b]) == Tally(TallyAll(buckets), b)
  {
    assert (buckets + [b])[..|buckets|] == buckets;
  }

  // _build_module_graph: the edges between different buckets.
  method JoinBuckets(bucketOf: map<string, string>, ghost directory: string, ghost hasOwn: bool, g: Graph)
    returns (edges: set<ModuleEdge>)
    requires BucketsById(bucketOf, directory, hasOwn, g.nodes)
    ensures edges == CrossingEdges(directory, hasOwn, g, g.edges)
  {
    edges := {};
    for i := 0 to |g.edges|
      invariant edges == CrossingEdges(directory, hasOwn, g, g.edges[..i])
    {
      CrossingNext(directory, hasOwn, g, i);
      var e := g.edges[i];
      assert GetBucket(bucketOf, e.fromId) == BucketOfId(directory, hasOwn, g.nodes, e.fromId);
      assert GetBucket(bucketOf, e.toId) == BucketOfId(directory, hasOwn, g.nodes, e.toId);
      if e.kind == Defines || e.fromId !in bucketOf || e.toId !in bucketOf || bucketOf[e.fromId] == bucketOf[e.toId] {
        continue;
      }
      edges := edges + {ModuleEdge(bucketOf[e.fromId], bucketOf[e.toId], e.kind)};
    }
    assert g.edges[..|g.edges|] == g.edges;
  }

  lemma CrossingNext(directory: string, hasOwn: bool, g: Graph, i: nat)
    requires i < |g.edges|
    ensures CrossingEdges(directory, hasOwn, g, g.edges[..i + 1])
         == CrossingEdges(directory, hasOwn, g, g.edges[..i])
            + if Crosses(directory, hasOwn, g.nodes, g.edges[i])
              then {Crossing(directory, hasOwn, g.nodes, g.edges[i])} else {}
  {
    assert g.edges[..i + 1] == g.edges[..i] + [g.edges[i]];
    assert forall e :: e in g.edges[..i + 1] <==> e in g.edges[..i] || e == g.edges[i];
  }

  // _expand_module
  method ExpandModule(g: Graph, directory: string) returns (expansion: Expansion)
    requires DistinctIds(g.nodes)
    ensures expansion == Expanded(g, directory)
  {
    if Tagged(directory) {
      return LeafExpansion(g, Untag(directory));
    }
    var bucketOf, hasOwn, hasChildren := AssignBuckets(directory, g.nodes);
    if !hasChildren {
      return LeafExpansion(g, directory);
    }
    bucketOf := DropTagged(bucketOf, directory, hasOwn, g.nodes);
    var modules := CountBuckets(bucketOf, directory, hasOwn, g.nodes);
    var edges := JoinBuckets(bucketOf, directory, hasOwn, g);
    expansion := Modules(modules, edges);
  }

  // ---- The entry point of both views ----------------------------------------------------------

  const MODULE_PREFIX := "module::"

  datatype View = ModuleView(expansion: Expansion) | SymbolView(symbols: seq<Symbol>, edges: seq<Edge>)

  // expand_neighborhood: a focus that names a module node is expanded, even if a symbol
  // has that id; any other focus shows what lies around that symbol.
  method ExpandNeighborhood(g: Graph, focus: string, depth: int) returns (view: View)
    requires DistinctIds(g.nodes)
    ensures MODULE_PREFIX <= focus ==> view == ModuleView(Expanded(g, focus[|MODULE_PREFIX|..]))
    ensures !(MODULE_PREFIX <= focus) && Find(g.nodes, focus).None? ==> view == SymbolView([], [])
    ensures !(MODULE_PREFIX <= focus) && Find(g.nodes, focus).Some? ==>
        view == SymbolView(NodesAmong(g, Around(g, focus, depth)), EdgesAmong(g, Around(g, focus, depth)))
  {
    if MODULE_PREFIX <= focus {
      var expansion := ExpandModule(g, focus[|MODULE_PREFIX|..]);
      return ModuleView(expansion);
    }
    var symbols, edges := SymbolsAround(g, focus, depth);
    view := SymbolView(symbols, edges);
  }
}
