// Opening directory nodes one after the other until a symbol is shown (code_graph/viz.py).
module DrilldownChains {
  import opened Lists
  import opened CodeGraph
  import opened Paths
  import opened ComponentCut
  import opened DirectoryTree
  import opened DrilldownLaws

  ghost predicate NoTagged(nodes: seq<Symbol>) {
    forall d | d in Dirs(nodes) :: !Tagged(d)
  }

  predicate Shows(g: Graph, bucket: string, next: string) {
    Expanded(g, bucket).Modules? && exists m | m in Expanded(g, bucket).modules :: m.bucket == next
  }

  predicate ShowsSymbol(g: Graph, bucket: string, s: Symbol) {
    Expanded(g, bucket).Symbols? && s in Expanded(g, bucket).symbols
  }

  function ShowsIn(g: Graph): (string, string) -> bool {
    (bucket: string, next: string) => Shows(g, bucket, next)
  }

  // Opening one node after the other from a top-level directory until the symbol is shown.
  ghost predicate OpenChain(g: Graph, chain: seq<string>, s: Symbol) {
    && chain != [] && chain[0] in TopLevel(Dirs(g.nodes))
    && Linked(ShowsIn(g), chain)
    && ShowsSymbol(g, chain[|chain| - 1], s)
  }

  // ---- Chains of any links ------------------------------------------------------------------

  ghost predicate LinkAt(link: (string, string) -> bool, chain: seq<string>, i: nat)
    requires i + 1 < |chain|
  {
    link(chain[i], chain[i + 1])
  }

  ghost predicate Linked(link: (string, string) -> bool, chain: seq<string>) {
    forall i: nat | i + 1 < |chain| :: LinkAt(link, chain, i)
  }

  lemma LinkedSnoc(link: (string, string) -> bool, chain: seq<string>, next: string)
    requires chain != [] && Linked(link, chain) && link(chain[|chain| - 1], next)
    ensures Linked(link, chain + [next])
  {
    forall i: nat | i + 1 < |chain + [next]| ensures LinkAt(link, chain + [next], i) {
      if i + 1 < |chain| {
        assert LinkAt(link, chain, i);
      }
    }
  }

  ghost predicate Keeps(link: (string, string) -> bool, holds: string -> bool, a: string, b: string) {
    link(a, b) && holds(a) ==> holds(b)
  }

  // What links keep holds all along a chain.
  lemma {:induction false} LinkedKeeps(link: (string, string) -> bool, holds: string -> bool, chain: seq<string>,
                                       i: nat)
    requires Linked(link, chain) && i < |chain| && holds(chain[0])
    requires forall a: string, b: string :: Keeps(link, holds, a, b)
    ensures holds(chain[i])
    decreases i
  {
    if i > 0 {
      LinkedKeeps(link, holds, chain, i - 1);
      assert LinkAt(link, chain, i - 1);
      assert Keeps(link, holds, chain[i - 1], chain[i]);
    }
  }

  // ---- What a node shows -----------------------------------------------------------------------

  // What an expansion shows is a child of an untagged directory, or its files.
  lemma ShownIsNear(g: Graph, p: string, next: string)
    requires DistinctIds(g.nodes) && Shows(g, p, next)
    ensures !Tagged(p) && (next == p + SELF_SUFFIX || next in Children(Dirs(g.nodes), p))
  {
    var m :| m in Expanded(g, p).modules && m.bucket == next;
    ModulesCount(g.nodes, p, m);
    var s :| s in InBucket(p, HasOwnSymbols(p, g.nodes), g.nodes, next);
    if DirectoryOf(s.path) != p {
      BucketIsChild(g.nodes, p, s);
    }
  }

  // next is a child of d, or the node for its own files.
  predicate IsNext(nodes: seq<Symbol>, d: string, next: string) {
    || next in Children(Dirs(nodes), d)
    || (Children(Dirs(nodes), d) != {} && OwnSet(nodes, d) != {} && next == d + SELF_SUFFIX)
  }

  lemma ShownNext(g: Graph, d: string, next: string)
    requires DistinctIds(g.nodes) && NoTagged(g.nodes) && d in Dirs(g.nodes)
    ensures Shows(g, d, next) <==> IsNext(g.nodes, d, next)
  {
    if Children(Dirs(g.nodes), d) == {} {
      HasChildrenIs(g.nodes, d);
    } else {
      AgreeableExpansion(g, d);
      ShownIsExpected(g.nodes, d, Expanded(g, d), next);
    }
  }

  lemma ShownIsExpected(nodes: seq<Symbol>, d: string, e: Expansion, next: string)
    requires ShowsChildren(e, nodes, d) && Children(Dirs(nodes), d) != {}
    ensures (exists m :: m in e.modules && m.bucket == next) <==> IsNext(nodes, d, next)
  {
    if m :| m in e.modules && m.bucket == next {
      ExpectedIs(nodes, d, m);
    }
    if IsNext(nodes, d, next) {
      var m := VizModule(next, if next in Children(Dirs(nodes), d) then Weight(nodes, next) else |OwnSet(nodes, d)|);
      ExpectedIs(nodes, d, m);
      assert m in e.modules;
    }
  }

  lemma LeafHas(g: Graph, d: string, s: Symbol)
    ensures s in LeafExpansion(g, d).symbols <==> s in g.nodes && DirectoryOf(s.path) == d
  {
    FilterMember(g.nodes, InDirectory(d), s);
  }

  // A directory shows its symbols when it has no subdirectories, its file node always does.
  lemma SymbolShown(g: Graph, d: string, s: Symbol)
    requires NoTagged(g.nodes) && d in Dirs(g.nodes)
    ensures ShowsSymbol(g, d, s) <==> Children(Dirs(g.nodes), d) == {} && s in g.nodes && DirectoryOf(s.path) == d
    ensures ShowsSymbol(g, d + SELF_SUFFIX, s) <==> s in g.nodes && DirectoryOf(s.path) == d
  {
    HasChildrenIs(g.nodes, d);
    TaggedSelf(d);
    LeafHas(g, d, s);
  }

  // The directories on the way down to d.
  function WayTo(d: string): (way: seq<string>)
    ensures way != [] && way[|way| - 1] == d
  {
    if '/' in d then WayTo(Parent(d)) + [d] else [d]
  }

  function ChainTo(nodes: seq<Symbol>, d: string): seq<string> {
    if Children(Dirs(nodes), d) == {} then WayTo(d) else WayTo(d) + [d + SELF_SUFFIX]
  }

  lemma {:induction false} WayIsShown(g: Graph, d: string)
    requires DistinctIds(g.nodes) && NoTagged(g.nodes) && d in Dirs(g.nodes)
    ensures WayTo(d)[0] in TopLevel(Dirs(g.nodes)) && Linked(ShowsIn(g), WayTo(d))
    decreases |d|
  {
    if '/' in d {
      DirsClosed(g.nodes);
      ParentAbove(d);
      WayIsShown(g, Parent(d));
      ShownNext(g, Parent(d), d);
      LinkedSnoc(ShowsIn(g), WayTo(Parent(d)), d);
    }
  }

  lemma ChainExists(g: Graph, s: Symbol)
    requires DistinctIds(g.nodes) && NoTagged(g.nodes) && s in g.nodes
    ensures OpenChain(g, ChainTo(g.nodes, DirectoryOf(s.path)), s)
  {
    var d := DirectoryOf(s.path);
    DirectoryOfSymbol(g.nodes, s);
    WayIsShown(g, d);
    SymbolShown(g, d, s);
    ShownNext(g, d, d + SELF_SUFFIX);
    if Children(Dirs(g.nodes), d) != {} {
      LinkedSnoc(ShowsIn(g), WayTo(d), d + SELF_SUFFIX);
    }
  }

  lemma DirectoryOfSymbol(nodes: seq<Symbol>, s: Symbol)
    requires s in nodes
    ensures DirectoryOf(s.path) in Dirs(nodes) && OwnSet(nodes, DirectoryOf(s.path)) != {}
  {
    assert Under(DirectoryOf(s.path), DirectoryOf(s.path));
    DirsMember(nodes, DirectoryOf(s.path));
    assert s in OwnSet(nodes, DirectoryOf(s.path));
  }

  // A directory, or the node for the files of one.
  function IsNode(nodes: seq<Symbol>): string -> bool {
    (x: string) => x in Dirs(nodes) || (Tagged(x) && Untag(x) in Dirs(nodes))
  }

  lemma NodesLeadToNodes(g: Graph, p: string, next: string)
    requires DistinctIds(g.nodes)
    ensures Keeps(ShowsIn(g), IsNode(g.nodes), p, next)
  {
    if Shows(g, p, next) && IsNode(g.nodes)(p) {
      ShownIsNear(g, p, next);
      TaggedSelf(p);
    }
  }

  // All but the last node of an open chain are directories.
  lemma ChainOfDirs(g: Graph, chain: seq<string>, s: Symbol, i: nat)
    requires DistinctIds(g.nodes) && NoTagged(g.nodes) && OpenChain(g, chain, s) && i + 1 < |chain|
    ensures chain[i] in Dirs(g.nodes) && IsNext(g.nodes, chain[i], chain[i + 1])
  {
    forall a: string, b: string ensures Keeps(ShowsIn(g), IsNode(g.nodes), a, b) {
      NodesLeadToNodes(g, a, b);
    }
    LinkedKeeps(ShowsIn(g), IsNode(g.nodes), chain, i);
    ChainShows(g, chain, s, i);
    DirectoryShows(g, chain[i], chain[i + 1]);
  }

  lemma DirectoryShows(g: Graph, d: string, next: string)
    requires DistinctIds(g.nodes) && NoTagged(g.nodes) && IsNode(g.nodes)(d) && Shows(g, d, next)
    ensures d in Dirs(g.nodes) && IsNext(g.nodes, d, next)
  {
    ShownIsNear(g, d, next);
    ShownNext(g, d, next);
  }

  predicate ChildOf(nodes: seq<Symbol>, d: string, c: string) {
    c in Children(Dirs(nodes), d)
  }

  lemma WayNext(nodes: seq<Symbol>, d: string, c: string)
    requires ChildOf(nodes, d, c)
    ensures WayTo(c) == WayTo(d) + [c]
  {
  }

  // From a top-level directory, every node of a chain is a next one of a directory.
  ghost predicate Descends(nodes: seq<Symbol>, chain: seq<string>) {
    && chain != [] && chain[0] in TopLevel(Dirs(nodes))
    && forall i: nat | i + 1 < |chain| :: DescendsAt(nodes, chain, i)
  }

  predicate DescendsAt(nodes: seq<Symbol>, chain: seq<string>, i: nat)
    requires i + 1 < |chain|
  {
    chain[i] in Dirs(nodes) && IsNext(nodes, chain[i], chain[i + 1])
  }

  lemma ChainDescends(g: Graph, chain: seq<string>, s: Symbol)
    requires DistinctIds(g.nodes) && NoTagged(g.nodes) && OpenChain(g, chain, s)
    ensures Descends(g.nodes, chain)
  {
    forall i: nat | i + 1 < |chain| ensures DescendsAt(g.nodes, chain, i) {
      ChainOfDirs(g, chain, s, i);
    }
  }

  lemma NextIsChild(nodes: seq<Symbol>, d: string, next: string)
    requires NoTagged(nodes) && IsNext(nodes, d, next)
    ensures if next in Dirs(nodes) then WayTo(next) == WayTo(d) + [next]
            else next == d + SELF_SUFFIX && Children(Dirs(nodes), d) != {}
  {
    TaggedSelf(d);
    if next in Dirs(nodes) { WayNext(nodes, d, next); }
  }

  lemma IsDirAt(nodes: seq<Symbol>, chain: seq<string>, i: nat, k: nat)
    requires Descends(nodes, chain) && k <= i < |chain| && chain[i] in Dirs(nodes)
    ensures chain[k] in Dirs(nodes)
  {
    if k < i {
      assert DescendsAt(nodes, chain, k);
    }
  }

  // Up to any directory in it, a descending chain is the way to that directory.
  lemma {:induction false} DirsBefore(nodes: seq<Symbol>, chain: seq<string>, i: nat)
    requires NoTagged(nodes) && Descends(nodes, chain) && i < |chain| && chain[i] in Dirs(nodes)
    ensures chain[..i + 1] == WayTo(chain[i])
    decreases i
  {
    if i == 0 {
      FirstIsWay(chain);
    } else {
      IsDirAt(nodes, chain, i, i - 1);
      DirsBefore(nodes, chain, i - 1);
      StepIsWay(nodes, chain, i);
      WayGrows(chain, i, WayTo(chain[i - 1]));
    }
  }

  lemma FirstIsWay(chain: seq<string>)
    requires chain != [] && '/' !in chain[0]
    ensures chain[..1] == WayTo(chain[0])
  {
    assert chain[..1] == [chain[0]];
  }

  lemma StepIsWay(nodes: seq<Symbol>, chain: seq<string>, i: nat)
    requires NoTagged(nodes) && Descends(nodes, chain) && 0 < i < |chain| && chain[i] in Dirs(nodes)
    ensures WayTo(chain[i]) == WayTo(chain[i - 1]) + [chain[i]]
  {
    assert DescendsAt(nodes, chain, i - 1);
    NextIsChild(nodes, chain[i - 1], chain[i]);
  }

  lemma WayGrows(chain: seq<string>, i: nat, way: seq<string>)
    requires 0 < i < |chain| && chain[..i] == way
    ensures chain[..i + 1] == way + [chain[i]]
  {
  }

  // A descending chain ends in a directory, or in the files of the one before.
  lemma DescentEnds(nodes: seq<Symbol>, chain: seq<string>) returns (d: string)
    requires NoTagged(nodes) && Descends(nodes, chain)
    ensures d in Dirs(nodes)
    ensures (var last := chain[|chain| - 1];
             || (last == d && chain == WayTo(d))
             || (last == d + SELF_SUFFIX && Children(Dirs(nodes), d) != {} && chain == WayTo(d) + [last]))
  {
    d := chain[|chain| - 1];
    if d in Dirs(nodes) {
      DirsBefore(nodes, chain, |chain| - 1);
      assert chain[..|chain| - 1 + 1] == chain;
    } else {
      d := EndsInFiles(nodes, chain);
    }
  }

  lemma EndsInFiles(nodes: seq<Symbol>, chain: seq<string>) returns (d: string)
    requires NoTagged(nodes) && Descends(nodes, chain) && chain[|chain| - 1] !in Dirs(nodes)
    ensures d in Dirs(nodes) && Children(Dirs(nodes), d) != {}
    ensures chain[|chain| - 1] == d + SELF_SUFFIX && chain == WayTo(d) + [chain[|chain| - 1]]
  {
    var m := |chain| - 2;
    assert DescendsAt(nodes, chain, m);
    d := chain[m];
    NextIsChild(nodes, d, chain[m + 1]);
    DirsBefore(nodes, chain, m);
    InitLast(chain);
  }

  // Every symbol is reached by opening nodes in exactly one way.
  lemma ChainIsUnique(g: Graph, chain: seq<string>, s: Symbol)
    requires DistinctIds(g.nodes) && NoTagged(g.nodes) && s in g.nodes && OpenChain(g, chain, s)
    ensures chain == ChainTo(g.nodes, DirectoryOf(s.path))
  {
    ChainDescends(g, chain, s);
    var d := DescentEnds(g.nodes, chain);
    SymbolShown(g, d, s);
  }

  // ---- When every symbol is reached ------------------------------------------------------

  predicate Below(t: string, x: string) {
    t + "/" <= x
  }

  lemma LastSlashFrom(x: string, i: nat)
    requires i < |x| && x[i] == '/'
    ensures '/' in x && LastSlash(x) >= i
  {
    assert x[i] in x;
    assert LastSlash(x) >= i;
  }

  lemma NoSlashInSuffix(i: nat)
    requires i < |SELF_SUFFIX|
    ensures SELF_SUFFIX[i] != '/'
  {
  }

  // Whatever shows something below t is t or itself below t.
  lemma FilesBelow(t: string, p: string)
    requires Below(t, p + SELF_SUFFIX)
    ensures Below(t, p)
  {
    var next := p + SELF_SUFFIX;
    StartsBelow(next, t);
    if |t| >= |p| {
      NoSlashInSuffix(|t| - |p|);
      assert false;
    }
    assert p == next[..|p|];
  }

  lemma ChildBelow(t: string, next: string)
    requires Below(t, next) && '/' in next
    ensures Parent(next) == t || Below(t, Parent(next))
  {
    StartsBelow(next, t);
    LastSlashFrom(next, |t|);
    assert Parent(next) == next[..LastSlash(next)];
  }

  lemma HiddenStep(g: Graph, p: string, next: string, t: string)
    requires DistinctIds(g.nodes) && Shows(g, p, next) && Tagged(t) && !Below(t, p)
    ensures !Below(t, next)
  {
    ShownIsNear(g, p, next);
    if Below(t, next) {
      if next == p + SELF_SUFFIX {
        FilesBelow(t, p);
      } else {
        ChildBelow(t, next);
      }
      assert false;
    }
  }

  // Nothing below a tagged directory is ever shown: the directory cannot be expanded.
  lemma BelowTaggedHidden(g: Graph, chain: seq<string>, s: Symbol, t: string, i: nat)
    requires DistinctIds(g.nodes) && OpenChain(g, chain, s) && Tagged(t) && i < |chain|
    ensures !Below(t, chain[i])
  {
    forall a: string, b: string ensures Keeps(ShowsIn(g), NotBelow(t), a, b) {
      if Shows(g, a, b) && !Below(t, a) { HiddenStep(g, a, b, t); }
    }
    TopIsNotBelow(t, chain[0]);
    LinkedKeeps(ShowsIn(g), NotBelow(t), chain, i);
  }

  function NotBelow(t: string): string -> bool {
    (x: string) => !Below(t, x)
  }

  lemma TopIsNotBelow(t: string, top: string)
    requires '/' !in top
    ensures !Below(t, top)
  {
    if Below(t, top) {
      StartsBelow(top, t);
    }
  }

  lemma ChainShows(g: Graph, chain: seq<string>, s: Symbol, i: nat)
    requires OpenChain(g, chain, s) && i + 1 < |chain|
    ensures Shows(g, chain[i], chain[i + 1])
  {
    assert LinkAt(ShowsIn(g), chain, i);
  }

  lemma {:induction false} Longest(ds: set<string>) returns (t: string)
    requires ds != {}
    ensures t in ds && forall d | d in ds :: |d| <= |t|
  {
    var x :| x in ds;
    if ds == {x} {
      t := x;
    } else {
      t := Longest(ds - {x});
      if |x| > |t| {
        t := x;
      }
    }
  }

  // The longest directory whose name ends with the suffix.
  lemma LongestTagged(nodes: seq<Symbol>) returns (t: string)
    requires !NoTagged(nodes)
    ensures t in Dirs(nodes) && Tagged(t) && forall d | d in Dirs(nodes) && Tagged(d) :: |d| <= |t|
  {
    var tagged := set d | d in Dirs(nodes) && Tagged(d);
    var d :| d in Dirs(nodes) && Tagged(d);
    assert d in tagged;
    t := Longest(tagged);
  }

  // What a node shows lies in the directory of that node.
  lemma ShownBy(g: Graph, b: string, s: Symbol)
    requires ShowsSymbol(g, b, s)
    ensures DirectoryOf(s.path) == if Tagged(b) then Untag(b) else b
  {
    LeafHas(g, if Tagged(b) then Untag(b) else b, s);
  }

  lemma UntagIs(b: string)
    requires Tagged(b)
    ensures b == Untag(b) + SELF_SUFFIX
  {
  }

  // The file node of the longest tagged directory is never shown either.
  lemma FilesOfTaggedHidden(g: Graph, chain: seq<string>, s: Symbol, t: string, i: nat)
    requires DistinctIds(g.nodes) && OpenChain(g, chain, s) && i < |chain|
    requires Tagged(t) && t + SELF_SUFFIX !in Dirs(g.nodes)
    ensures chain[i] != t + SELF_SUFFIX
  {
    if i > 0 {
      ChainShows(g, chain, s, i - 1);
      FilesNotShown(g, chain[i - 1], chain[i], t);
    }
  }

  lemma NotADirectory(nodes: seq<Symbol>, t: string)
    requires forall d | d in Dirs(nodes) && Tagged(d) :: |d| <= |t|
    ensures t + SELF_SUFFIX !in Dirs(nodes)
  {
    TaggedSelf(t);
  }

  lemma FilesNotShown(g: Graph, p: string, next: string, t: string)
    requires DistinctIds(g.nodes) && Shows(g, p, next) && Tagged(t) && t + SELF_SUFFIX !in Dirs(g.nodes)
    ensures next != t + SELF_SUFFIX
  {
    ShownIsNear(g, p, next);
    SameBeforeSuffix(p, t);
  }

  lemma SameBeforeSuffix(p: string, t: string)
    ensures p + SELF_SUFFIX == t + SELF_SUFFIX ==> p == t
  {
    assert p == (p + SELF_SUFFIX)[..|p|] && t == (t + SELF_SUFFIX)[..|t|];
  }

  // A symbol in or below the longest tagged directory is never shown.
  lemma TaggedIsLost(g: Graph, t: string, s: Symbol, chain: seq<string>)
    requires DistinctIds(g.nodes) && t in Dirs(g.nodes) && Tagged(t) && Under(DirectoryOf(s.path), t)
    requires forall d | d in Dirs(g.nodes) && Tagged(d) :: |d| <= |t|
    ensures !OpenChain(g, chain, s)
  {
    if OpenChain(g, chain, s) {
      var last := |chain| - 1;
      ShownBy(g, chain[last], s);
      BelowTaggedHidden(g, chain, s, t, last);
      NotADirectory(g.nodes, t);
      FilesOfTaggedHidden(g, chain, s, t, last);
      NodeOfBelow(DirectoryOf(s.path), chain[last], t);
    }
  }

  lemma NodeOfBelow(x: string, b: string, t: string)
    requires Under(x, t) && x == (if Tagged(b) then Untag(b) else b) && Tagged(t)
    ensures Below(t, b) || b == t + SELF_SUFFIX
  {
    UnderIsStart(x, t);
    if Tagged(b) {
      UntagIs(b);
    }
  }

  ghost predicate OneChain(g: Graph, s: Symbol) {
    exists chain :: OpenChain(g, chain, s) && forall other | OpenChain(g, other, s) :: other == chain
  }

  // Every symbol is reached by opening nodes in exactly one way, if and only if no
  // directory name ends with the suffix of file nodes; otherwise some symbol is not
  // reached at all.
  lemma DrilldownIsExact(g: Graph)
    requires DistinctIds(g.nodes)
    ensures (forall s | s in g.nodes :: OneChain(g, s)) <==> NoTagged(g.nodes)
    ensures !NoTagged(g.nodes) ==> exists s :: s in g.nodes && forall chain :: !OpenChain(g, chain, s)
  {
    if NoTagged(g.nodes) {
      forall s | s in g.nodes ensures OneChain(g, s) {
        ChainExists(g, s);
        forall other | OpenChain(g, other, s) ensures other == ChainTo(g.nodes, DirectoryOf(s.path)) {
          ChainIsUnique(g, other, s);
        }
      }
    } else {
      var t := LongestTagged(g.nodes);
      DirsMember(g.nodes, t);
      var s :| s in g.nodes && Under(DirectoryOf(s.path), t);
      forall chain ensures !OpenChain(g, chain, s) {
        TaggedIsLost(g, t, s, chain);
      }
    }
  }

  // Such a directory: the expansion of `a` does not agree, and the symbol is lost.
  lemma TaggedExample(g: Graph, s: Symbol)
    requires g.nodes == [s] && s.path == "a" + "/x" + SELF_SUFFIX + "/f"
    ensures "a" in Dirs(g.nodes) && Children(Dirs(g.nodes), "a") != {} && !Agreeable(g.nodes, "a")
    ensures forall chain :: !OpenChain(g, chain, s)
  {
    var c := "a" + "/x" + SELF_SUFFIX;
    ExamplePaths(s.path, c);
    ExampleDirs(g.nodes, s, "a", c);
    assert !NoTagged(g.nodes);
    DrilldownIsExact(g);
  }

  lemma ExamplePaths(path: string, c: string)
    requires c == "a" + "/x" + SELF_SUFFIX && path == c + "/f"
    ensures DirectoryOf(path) == c && '/' in c && Parent(c) == "a" && Tagged(c)
  {
    SlashIs(path, |c|);
    assert path[..|c|] == c;
    SlashIs(c, 1);
  }

  lemma SlashIs(path: string, i: nat)
    requires i < |path| && path[i] == '/' && forall j | i < j < |path| :: path[j] != '/'
    ensures '/' in path && LastSlash(path) == i
  {
    LastSlashFrom(path, i);
  }

  // The one symbol lies in c, the only directory below d.
  lemma ExampleDirs(nodes: seq<Symbol>, s: Symbol, d: string, c: string)
    requires nodes == [s] && DirectoryOf(s.path) == c && '/' in c && Parent(c) == d && Tagged(c)
    ensures c in Dirs(nodes) && d in Dirs(nodes) && Children(Dirs(nodes), d) == {c} && OwnSet(nodes, d) == {}
  {
    ParentAbove(c);
    DirsAbove(nodes, s, c);
    forall x | x in Children(Dirs(nodes), d) ensures x == c {
      OnlyChild(c, x);
    }
  }

  lemma DirsAbove(nodes: seq<Symbol>, s: Symbol, c: string)
    requires nodes == [s] && DirectoryOf(s.path) == c
    ensures forall x :: x in Dirs(nodes) <==> Under(c, x)
  {
    forall x ensures x in Dirs(nodes) <==> Under(c, x) {
      DirsMember(nodes, x);
      assert s in nodes;
    }
  }

  lemma OnlyChild(c: string, x: string)
    requires Under(c, x) && '/' in c && '/' in x && Parent(x) == Parent(c)
    ensures x == c
  {
    if x != c {
      BelowParent(c, x);
      assert false;
    }
  }
}
