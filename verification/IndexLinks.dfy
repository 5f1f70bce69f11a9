// Which links an index holds after any chain of builds, and when it equals a build
// from scratch.
module IndexLinks {
  import opened Lists
  import opened CodeGraph
  import opened GraphBuild
  import opened Incremental
  import opened IncrementalNodes
  import opened IncrementalEdges
  import opened IncrementalTheorems
  import opened IncrementalLimits
  import opened IndexHistory

  // A build after one of files0 carries the links of f over instead of finding them anew.
  predicate CarriedOver(ix: Indexer, files0: seq<File>, f: File) {
    && f in files0 && ix.parse(f.path, f.content).Some?
    && !HasOrphanMethod(ix.parse(f.path, f.content).value.symbols)
  }

  // That is so for the file e leaves.
  predicate SourceCarried(ix: Indexer, owner: string -> string, files0: seq<File>, files: seq<File>, e: Edge) {
    exists f | f in files :: f.path == owner(e.fromId) && CarriedOver(ix, files0, f)
  }

  // What one build of a chain says about a link: how often a build from scratch of its
  // files finds it, whether it carries the file over that the link leaves, and whether
  // both ends are symbols of its files.
  datatype Look = Look(found: nat, carried: bool, joined: bool)

  function LookAt(ix: Indexer, owner: string -> string, files0: seq<File>, files: seq<File>, e: Edge): Look {
    Look(multiset(FullGraph(ix, files).edges)[e], SourceCarried(ix, owner, files0, files, e),
         Closed(FullNodes(ix, files), e))
  }

  function Looks(ix: Indexer, owner: string -> string, builds: seq<seq<File>>, e: Edge): seq<Look> {
    if builds == [] then []
    else
      var init := builds[..|builds| - 1];
      Looks(ix, owner, init, e) + [LookAt(ix, owner, LastFiles(init), LastFiles(builds), e)]
  }

  // How often the index holds the link after these builds.
  function Tally(looks: seq<Look>): nat {
    if looks == [] then 0
    else
      var last := looks[|looks| - 1];
      if !last.joined then 0 else if last.carried then Tally(looks[..|looks| - 1]) else last.found
  }

  // Build j is the last to parse the file the link leaves, it finds the link, and from
  // then on both ends have been symbols of every build.
  predicate FoundLastAt(looks: seq<Look>, j: nat) {
    && j < |looks| && !looks[j].carried && looks[j].found > 0
    && forall i | j < i < |looks| :: looks[i].carried && looks[i].joined
  }

  predicate JoinedWhenFound(looks: seq<Look>) {
    forall i | 0 <= i < |looks| :: looks[i].found > 0 ==> looks[i].joined
  }

  lemma {:induction false} TallyIsFound(looks: seq<Look>) returns (j: nat)
    requires JoinedWhenFound(looks) && Tally(looks) > 0
    ensures FoundLastAt(looks, j)
  {
    j := |looks| - 1;
    if looks[j].carried {
      j := TallyIsFound(looks[..|looks| - 1]);
    }
  }

  lemma {:induction false} FoundIsTally(looks: seq<Look>, j: nat)
    requires JoinedWhenFound(looks) && FoundLastAt(looks, j)
    ensures Tally(looks) == looks[j].found
  {
    if j < |looks| - 1 {
      FoundIsTally(looks[..|looks| - 1], j);
    }
  }

  lemma ClosedInNodes(ix: Indexer, owner: string -> string, g: Graph, files: seq<File>, e: Edge)
    requires IndexerOk(ix, owner) && DistinctPaths(files) && NodesExact(ix, g, files)
    ensures Closed(g.nodes, e) == Closed(FullNodes(ix, files), e)
  {
    DistinctIdsSame(g.nodes, FullNodes(ix, files));
    FindSameBag(g.nodes, FullNodes(ix, files), e.fromId);
    FindSameBag(g.nodes, FullNodes(ix, files), e.toId);
  }

  lemma DistinctIdsSame(xs: seq<Symbol>, ys: seq<Symbol>)
    requires DistinctIds(xs) && multiset(xs) == multiset(ys)
    ensures DistinctIds(ys)
  {
    SameBagSameLength(xs, ys);
    DistinctSameBag(xs, ys);
    forall i, j | 0 <= i < j < |ys| ensures ys[i].id != ys[j].id {
      assert ys[i] in xs && ys[j] in xs;
    }
  }

  lemma FullCount(ix: Indexer, owner: string -> string, files: seq<File>, e: Edge)
    requires IndexerOk(ix, owner) && DistinctPaths(files) && e.kind != Tests
    ensures multiset(FullGraph(ix, files).edges)[e] == multiset(MergedGraph(ix, NO_GRAPH, files).edges)[e]
  {
    NoGraphRooted(owner);
    NoTestEdges(ix, owner, NO_GRAPH, files);
    FinishedCount(MergedGraph(ix, NO_GRAPH, files), e);
  }

  // What one build makes of the count of e: kept when the file it leaves is carried over,
  // found anew otherwise.
  lemma MergedLink(ix: Indexer, owner: string -> string, prev: Graph, files0: seq<File>, files: seq<File>, e: Edge)
    requires IndexerOk(ix, owner) && DistinctPaths(files) && DistinctPaths(files0)
    requires IndexOf(ix, owner, prev, files0) && e.kind != Tests
    ensures multiset(MergedGraph(ix, prev, files).edges)[e]
         == if SourceCarried(ix, owner, files0, files, e) then multiset(prev.edges)[e]
            else multiset(FullGraph(ix, files).edges)[e]
  {
    FullCount(ix, owner, files, e);
    if f :| f in files && f.path == owner(e.fromId) {
      UnchangedExactly(ix, owner, prev, files0, files, f);
      assert forall h | h in files && h.path == f.path :: h == f;
      assert SourceCarried(ix, owner, files0, files, e) <==> Unchanged(ix, prev, files, f);
      if Unchanged(ix, prev, files, f) {
        UnchangedFileEdges(ix, owner, prev, files, f, e);
      } else {
        ChangedFileEdges(ix, owner, prev, files0, files, f, e);
      }
    } else {
      MergedCountNone(ix, owner, prev, files, e);
      NoGraphRooted(owner);
      MergedCountNone(ix, owner, NO_GRAPH, files, e);
    }
  }

  lemma StoredLink(ix: Indexer, owner: string -> string, prev: Graph, files0: seq<File>, files: seq<File>,
                   r: Option<Graph>, e: Edge)
    requires IndexerOk(ix, owner) && DistinctPaths(files) && DistinctPaths(files0)
    requires IndexOf(ix, owner, prev, files0) && ReadBack(IncrementalGraph(ix, prev, files), r) && e.kind != Tests
    ensures multiset(r.GetOr(NO_GRAPH).edges)[e]
         == if !Closed(FullNodes(ix, files), e) then 0
            else if SourceCarried(ix, owner, files0, files, e) then multiset(prev.edges)[e]
            else multiset(FullGraph(ix, files).edges)[e]
  {
    var merged := MergedGraph(ix, prev, files);
    var g := IncrementalGraph(ix, prev, files);
    NodesAgree(ix, owner, prev, files0, files);
    ClosedInNodes(ix, owner, g, files, e);
    NoTestEdges(ix, owner, prev, files);
    FinishedCount(merged, e);
    MergedLink(ix, owner, prev, files0, files, e);
    if r.Some? {
      ReadBackCount(g, r.value, e);
    }
  }

  // After any chain of builds, every link is in the index exactly as often as that.
  lemma {:induction false} LinksAreCounted(ix: Indexer, owner: string -> string, builds: seq<seq<File>>,
                                           stored: Option<Graph>, e: Edge)
    requires IndexerOk(ix, owner) && Reaches(ix, builds, stored) && e.kind != Tests
    ensures multiset(stored.GetOr(NO_GRAPH).edges)[e] == Tally(Looks(ix, owner, builds, e))
  {
    if builds != [] {
      var init, files := builds[..|builds| - 1], LastFiles(builds);
      var prev :| Reaches(ix, init, prev) && StoredFrom(ix, prev, files, stored);
      ChainKeepsIndex(ix, owner, init, prev);
      LinksAreCounted(ix, owner, init, prev, e);
      StoredLink(ix, owner, prev.GetOr(NO_GRAPH), LastFiles(init), files, stored, e);
      LooksGrow(ix, owner, builds, e);
    }
  }

  lemma LooksGrow(ix: Indexer, owner: string -> string, builds: seq<seq<File>>, e: Edge)
    requires builds != []
    ensures (var init := builds[..|builds| - 1];
             var last := LookAt(ix, owner, LastFiles(init), LastFiles(builds), e);
             Tally(Looks(ix, owner, builds, e))
             == if !last.joined then 0 else if last.carried then Tally(Looks(ix, owner, init, e)) else last.found)
  {
    var init := builds[..|builds| - 1];
    var last := LookAt(ix, owner, LastFiles(init), LastFiles(builds), e);
    var looks := Looks(ix, owner, builds, e);
    assert looks == Looks(ix, owner, init, e) + [last];
    assert looks[..|looks| - 1] == Looks(ix, owner, init, e);
  }

  // ---- Which links those are ---------------------------------------------------------

  lemma FoundIsJoined(ix: Indexer, owner: string -> string, files0: seq<File>, files: seq<File>, e: Edge)
    requires IndexerOk(ix, owner) && DistinctPaths(files)
    ensures LookAt(ix, owner, files0, files, e).found > 0 ==> LookAt(ix, owner, files0, files, e).joined
  {
    var g := FullGraph(ix, files);
    if multiset(g.edges)[e] > 0 {
      FullClosed(ix, owner, files);
      assert e in g.edges;
      FullGraphNodes(ix, owner, files);
      ClosedInNodes(ix, owner, g, files, e);
    }
  }

  lemma ReachesBefore(ix: Indexer, builds: seq<seq<File>>, stored: Option<Graph>) returns (prev: Option<Graph>)
    requires builds != [] && Reaches(ix, builds, stored)
    ensures DistinctPaths(LastFiles(builds)) && Reaches(ix, builds[..|builds| - 1], prev)
  {
    var init, files := builds[..|builds| - 1], builds[|builds| - 1];
    prev :| Reaches(ix, init, prev) && StoredFrom(ix, prev, files, stored);
  }

  lemma JoinedSnoc(looks: seq<Look>, last: Look)
    requires JoinedWhenFound(looks) && (last.found > 0 ==> last.joined)
    ensures JoinedWhenFound(looks + [last])
  {
  }

  lemma {:induction false} LooksAreJoined(ix: Indexer, owner: string -> string, builds: seq<seq<File>>,
                                          stored: Option<Graph>, e: Edge)
    requires IndexerOk(ix, owner) && Reaches(ix, builds, stored)
    ensures |Looks(ix, owner, builds, e)| == |builds| && JoinedWhenFound(Looks(ix, owner, builds, e))
  {
    if builds != [] {
      var prev := ReachesBefore(ix, builds, stored);
      var init := builds[..|builds| - 1];
      LooksAreJoined(ix, owner, init, prev, e);
      FoundIsJoined(ix, owner, LastFiles(init), LastFiles(builds), e);
      JoinedSnoc(Looks(ix, owner, init, e), LookAt(ix, owner, LastFiles(init), LastFiles(builds), e));
    }
  }

  // After any chain of builds: a link is stored if and only if the last build that parsed
  // the file it leaves found it and both its ends have been symbols of every build since;
  // and then it is stored as often as that build found it.
  lemma LinksAreFound(ix: Indexer, owner: string -> string, builds: seq<seq<File>>, stored: Option<Graph>, e: Edge)
    requires IndexerOk(ix, owner) && Reaches(ix, builds, stored) && e.kind != Tests
    ensures (var looks := Looks(ix, owner, builds, e);
             && (e in stored.GetOr(NO_GRAPH).edges <==> exists j: nat :: FoundLastAt(looks, j))
             && forall j: nat | FoundLastAt(looks, j) :: multiset(stored.GetOr(NO_GRAPH).edges)[e] == looks[j].found)
  {
    var looks, edges := Looks(ix, owner, builds, e), stored.GetOr(NO_GRAPH).edges;
    LooksAreJoined(ix, owner, builds, stored, e);
    LinksAreCounted(ix, owner, builds, stored, e);
    assert e in edges <==> multiset(edges)[e] > 0;
    if Tally(looks) > 0 {
      var j := TallyIsFound(looks);
    }
    forall j: nat | FoundLastAt(looks, j) ensures Tally(looks) == looks[j].found {
      FoundIsTally(looks, j);
    }
  }

  // ---- When the index is that of a build from scratch ------------------------------------

  lemma TestsFollow(a: Graph, b: Graph, e: Edge)
    requires TestsExact(a) && TestsExact(b) && DistinctIds(a.nodes) && DistinctIds(b.nodes)
    requires multiset(a.nodes) == multiset(b.nodes) && e.kind == Tests
    requires forall d: Edge | d.kind != Tests :: multiset(a.edges)[d] == multiset(b.edges)[d]
    ensures multiset(a.edges)[e] == multiset(b.edges)[e]
  {
    FindSameBag(a.nodes, b.nodes, e.fromId);
    var reference, imported := e.(kind := References), e.(kind := Imports);
    assert multiset(a.edges)[reference] == multiset(b.edges)[reference];
    assert multiset(a.edges)[imported] == multiset(b.edges)[imported];
  }

  lemma FinishedTests(g: Graph, e: Edge)
    requires (forall d | d in g.edges :: d.kind != Tests) && e.kind == Tests
    ensures multiset(WithTestEdges(g).edges)[e]
         == if IsTestPath(SourcePath(g.nodes, e))
            then multiset(WithTestEdges(g).edges)[e.(kind := References)]
                 + multiset(WithTestEdges(g).edges)[e.(kind := Imports)] else 0
  {
    FinishedCount(g, e);
    FinishedCount(g, e.(kind := References));
    FinishedCount(g, e.(kind := Imports));
  }

  lemma FullTests(ix: Indexer, owner: string -> string, files: seq<File>)
    requires IndexerOk(ix, owner) && DistinctPaths(files)
    ensures TestsExact(FullGraph(ix, files))
  {
    var g := MergedGraph(ix, NO_GRAPH, files);
    NoGraphRooted(owner);
    NoTestEdges(ix, owner, NO_GRAPH, files);
    FinishedTestsAll(g);
  }

  lemma FinishedTestsAll(g: Graph)
    requires forall d | d in g.edges :: d.kind != Tests
    ensures TestsExact(WithTestEdges(g))
  {
    forall e: Edge | e.kind == Tests
      ensures multiset(WithTestEdges(g).edges)[e]
           == if IsTestPath(SourcePath(g.nodes, e))
              then multiset(WithTestEdges(g).edges)[e.(kind := References)]
                   + multiset(WithTestEdges(g).edges)[e.(kind := Imports)] else 0
    {
      FinishedTests(g, e);
    }
  }

  // After any chain of builds the index equals the build from scratch of the last files
  // if and only if every link is found now as often as when its file was last parsed.
  lemma ChainIsFull(ix: Indexer, owner: string -> string, builds: seq<seq<File>>, stored: Option<Graph>)
    requires IndexerOk(ix, owner) && Reaches(ix, builds, stored)
    ensures SameGraph(stored.GetOr(NO_GRAPH), FullGraph(ix, LastFiles(builds)))
       <==> forall e: Edge | e.kind != Tests ::
              Tally(Looks(ix, owner, builds, e)) == multiset(FullGraph(ix, LastFiles(builds)).edges)[e]
  {
    var a, b := stored.GetOr(NO_GRAPH), FullGraph(ix, LastFiles(builds));
    ChainKeepsIndex(ix, owner, builds, stored);
    FullGraphNodes(ix, owner, LastFiles(builds));
    FullTests(ix, owner, LastFiles(builds));
    forall e: Edge | e.kind != Tests ensures multiset(a.edges)[e] == Tally(Looks(ix, owner, builds, e)) {
      LinksAreCounted(ix, owner, builds, stored, e);
    }
    if forall e: Edge | e.kind != Tests :: Tally(Looks(ix, owner, builds, e)) == multiset(b.edges)[e] {
      forall e: Edge ensures multiset(a.edges)[e] == multiset(b.edges)[e] {
        if e.kind == Tests {
          TestsFollow(a, b, e);
        }
      }
      SameCounts(multiset(a.edges), multiset(b.edges));
    }
  }
}
