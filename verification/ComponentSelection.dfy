// select_prefixes and the candidate counts (architecture/candidates.py).
module ComponentSelection {
  import opened Lists
  import opened Strings
  import opened CodeGraph
  import opened Paths
  import opened ComponentCut

  // ---- Building the tree -------------------------------------------------------------

  ghost predicate CountsOf(counts: map<string, nat>, nodes: seq<Symbol>) {
    forall d :: (if d in counts then counts[d] else 0) == |OwnSet(nodes, d)| && (d in counts ==> counts[d] > 0)
  }

  // _own_counts
  method OwnCounts(nodes: seq<Symbol>) returns (counts: map<string, nat>)
    requires DistinctIds(nodes)
    ensures CountsOf(counts, nodes)
  {
    counts := map[];
    for i := 0 to |nodes|
      invariant CountsOf(counts, nodes[..i])
    {
      CountOne(counts, nodes, i);
      var directory := DirectoryOf(nodes[i].path);
      counts := counts[directory := (if directory in counts then counts[directory] else 0) + 1];
    }
    assert nodes[..|nodes|] == nodes;
  }

  lemma CountOne(counts: map<string, nat>, nodes: seq<Symbol>, i: nat)
    requires DistinctIds(nodes) && i < |nodes| && CountsOf(counts, nodes[..i])
    ensures var d := DirectoryOf(nodes[i].path);
        CountsOf(counts[d := (if d in counts then counts[d] else 0) + 1], nodes[..i + 1])
  {
    var directory := DirectoryOf(nodes[i].path);
    var counts' := counts[directory := (if directory in counts then counts[directory] else 0) + 1];
    forall d
      ensures (if d in counts' then counts'[d] else 0) == |OwnSet(nodes[..i + 1], d)|
          && (d in counts' ==> counts'[d] > 0)
    {
      OwnSetTake(nodes, i, d);
      assert nodes[i] !in OwnSet(nodes[..i], d);
    }
  }

  lemma OwnSetTake(nodes: seq<Symbol>, i: nat, d: string)
    requires i < |nodes|
    ensures OwnSet(nodes[..i + 1], d)
         == OwnSet(nodes[..i], d) + if d == DirectoryOf(nodes[i].path) then {nodes[i]} else {}
  {
    assert nodes[..i + 1] == nodes[..i] + [nodes[i]];
  }

  // _expand_directories
  method ExpandDirectories(leaves: set<string>) returns (directories: set<string>)
    ensures directories == set leaf, d | leaf in leaves && d in Ancestors(leaf) :: d
  {
    directories := {};
    var rest := leaves;
    while rest != {}
      invariant rest <= leaves
      invariant directories == set leaf, d | leaf in leaves && leaf !in rest && d in Ancestors(leaf) :: d
      decreases |rest|
    {
      var leaf :| leaf in rest;
      var added: set<string> := {leaf};
      for i := 0 to |leaf|
        invariant added == {leaf} + set j | 0 <= j < i && leaf[j] == '/' :: leaf[..j]
      {
        if leaf[i] == '/' {
          added := added + {leaf[..i]};
        }
      }
      WholeIsAncestor(leaf, added);
      directories, rest := directories + added, rest - {leaf};
    }
  }

  lemma WholeIsAncestor(leaf: string, added: set<string>)
    requires added == {leaf} + set j | 0 <= j < |leaf| && leaf[j] == '/' :: leaf[..j]
    ensures added == Ancestors(leaf)
  {
    assert leaf[..|leaf|] == leaf;
    forall d ensures d in added <==> d in Ancestors(leaf) {
      if d in Ancestors(leaf) {
        var i :| 0 <= i <= |leaf| && (i == |leaf| || leaf[i] == '/') && d == leaf[..i];
      }
    }
  }

  ghost predicate LinksChildren(children: map<string, set<string>>, directories: set<string>, done: set<string>) {
    children.Keys == directories && forall d | d in directories :: children[d] == Children(done, d)
  }

  // if parent in children: children[parent].add(directory)
  function AddChild(children: map<string, set<string>>, directory: string): map<string, set<string>> {
    if '/' in directory && Parent(directory) in children then
      children[Parent(directory) := children[Parent(directory)] + {directory}]
    else children
  }

  lemma AddChildLinks(children: map<string, set<string>>, directories: set<string>, done: set<string>, x: string)
    requires LinksChildren(children, directories, done)
    ensures LinksChildren(AddChild(children, x), directories, done + {x})
  {
    forall d | d in directories ensures AddChild(children, x)[d] == Children(done + {x}, d) {
      assert Children(done + {x}, d) == Children(done, d) + if '/' in x && Parent(x) == d then {x} else {};
    }
  }

  // _children_map
  method ChildrenMap(directories: set<string>) returns (children: map<string, set<string>>)
    ensures LinksChildren(children, directories, directories)
  {
    children := map d | d in directories :: {};
    var rest := directories;
    ghost var done: set<string> := {};
    while rest != {}
      invariant done + rest == directories && LinksChildren(children, directories, done)
      decreases |rest|
    {
      var directory :| directory in rest;
      AddChildLinks(children, directories, done, directory);
      children := AddChild(children, directory);
      rest, done := rest - {directory}, done + {directory};
    }
  }

  // subtree(): counts below a directory, remembered once computed
  class SubtreeCounter {
    const nodes: seq<Symbol>
    const ownCounts: map<string, nat>
    const children: map<string, set<string>>
    var cache: map<string, nat>

    constructor (nodes: seq<Symbol>, ownCounts: map<string, nat>, children: map<string, set<string>>)
      ensures this.nodes == nodes && this.ownCounts == ownCounts && this.children == children && cache == map[]
    {
      this.nodes, this.ownCounts, this.children, cache := nodes, ownCounts, children, map[];
    }

    ghost predicate Valid()
      reads this
    {
      var dirs := children.Keys;
      && dirs == Dirs(nodes)
      && LinksChildren(children, dirs, dirs)
      && CountsOf(ownCounts, nodes)
      && (forall d | d in cache :: d in dirs && cache[d] == Weight(nodes, d))
    }

    method Subtree(directory: string) returns (count: nat)
      requires Valid() && directory in children
      modifies this`cache
      ensures Valid() && count == Weight(nodes, directory)
      decreases set x | x in children.Keys && Under(x, directory)
    {
      if directory !in cache {
        var total := SumChildren(directory);
        NothingBelow(nodes);
        cache := cache[directory := (if directory in ownCounts then ownCounts[directory] else 0) + total];
      }
      count := cache[directory];
    }

    method SumChildren(directory: string) returns (total: nat)
      requires Valid() && directory in children
      modifies this`cache
      ensures Valid() && StillToCount(nodes, directory, total, {})
      decreases set x | x in children.Keys && Under(x, directory), 1
    {
      WeightSplits(nodes, directory);
      total := 0;
      var rest := children[directory];
      while rest != {}
        invariant Valid() && rest <= children[directory]
        invariant StillToCount(nodes, directory, total, rest)
        decreases |rest|
      {
        var child :| child in rest;
        total := AddChildCount(directory, total, rest, child);
        rest := rest - {child};
      }
    }

    method AddChildCount(directory: string, total: nat, ghost rest: set<string>, child: string) returns (sum: nat)
      requires Valid() && directory in children && child in rest && rest <= children[directory]
      requires StillToCount(nodes, directory, total, rest)
      modifies this`cache
      ensures Valid() && StillToCount(nodes, directory, sum, rest - {child})
      decreases set x | x in children.Keys && Under(x, directory), 0
    {
      ChildSmaller(children.Keys, directory, child);
      var count := Subtree(child);
      ChildCounted(children.Keys, nodes, directory, total, rest, child);
      sum := total + count;
    }
  }

  // What the counts of the children in rest will add to make the weight of d.
  ghost predicate StillToCount(nodes: seq<Symbol>, d: string, total: nat, rest: set<string>) {
    |OwnSet(nodes, d)| + total + |BelowAny(nodes, rest)| == Weight(nodes, d)
  }

  // The weight of a directory, from its own symbols and its children.
  lemma WeightSplits(nodes: seq<Symbol>, d: string)
    ensures |OwnSet(nodes, d)| + |BelowAny(nodes, Children(Dirs(nodes), d))| == Weight(nodes, d)
  {
    SubtreeSplits(nodes, d);
    OwnApart(Dirs(nodes), nodes, d);
    ApartSize(OwnSet(nodes, d), BelowAny(nodes, Children(Dirs(nodes), d)));
  }

  // The subtrees of the remaining children fall apart into one and the others.
  lemma TakeChild(dirs: set<string>, nodes: seq<Symbol>, d: string, rest: set<string>, child: string)
    requires rest <= Children(dirs, d) && child in rest
    ensures |BelowAny(nodes, rest)| == Weight(nodes, child) + |BelowAny(nodes, rest - {child})|
  {
    BelowAnyTake(nodes, rest, child);
    ChildDisjoint(dirs, nodes, d, rest - {child}, child);
    ApartSize(SubtreeSet(nodes, child), BelowAny(nodes, rest - {child}));
  }

  lemma ChildCounted(dirs: set<string>, nodes: seq<Symbol>, d: string, total: nat, rest: set<string>, child: string)
    requires rest <= Children(dirs, d) && child in rest && StillToCount(nodes, d, total, rest)
    ensures StillToCount(nodes, d, total + Weight(nodes, child), rest - {child})
  {
    TakeChild(dirs, nodes, d, rest, child);
  }

  lemma ApartSize<T>(a: set<T>, b: set<T>)
    requires a !! b
    ensures |a + b| == |a| + |b|
  {
  }

  function BelowAny(nodes: seq<Symbol>, ds: set<string>): set<Symbol> {
    set d, s | d in ds && s in SubtreeSet(nodes, d) :: s
  }

  lemma NothingBelow(nodes: seq<Symbol>)
    ensures |BelowAny(nodes, {})| == 0
  {
    assert BelowAny(nodes, {}) == {};
  }

  lemma BelowAnyTake(nodes: seq<Symbol>, ds: set<string>, d: string)
    requires d in ds
    ensures BelowAny(nodes, ds) == SubtreeSet(nodes, d) + BelowAny(nodes, ds - {d})
  {
  }

  lemma ChildSmaller(dirs: set<string>, d: string, c: string)
    requires c in Children(dirs, d) && d in dirs
    ensures (set x | x in dirs && Under(x, c)) < (set x | x in dirs && Under(x, d))
  {
    ParentAbove(c);
    forall x | x in dirs && Under(x, c) ensures Under(x, d) {
      UnderTransitive(x, c, d);
    }
    assert Under(d, d) && !Under(d, c);
    var below, above := set x | x in dirs && Under(x, c), set x | x in dirs && Under(x, d);
    assert below <= above && d in above && d !in below;
  }

  lemma ChildDisjoint(dirs: set<string>, nodes: seq<Symbol>, d: string, done: set<string>, c: string)
    requires done <= Children(dirs, d) && c in Children(dirs, d) && c !in done
    ensures SubtreeSet(nodes, c) !! OwnSet(nodes, d) + BelowAny(nodes, done)
  {
    ParentAbove(c);
    forall s | s in SubtreeSet(nodes, c) ensures s !in OwnSet(nodes, d) && s !in BelowAny(nodes, done) {
      if s in BelowAny(nodes, done) {
        var e :| e in done && s in SubtreeSet(nodes, e);
        ChildrenApart(dirs, d, c, e, DirectoryOf(s.path));
      }
    }
  }

  lemma OwnApart(dirs: set<string>, nodes: seq<Symbol>, d: string)
    ensures OwnSet(nodes, d) !! BelowAny(nodes, Children(dirs, d))
  {
    forall c | c in Children(dirs, d) ensures OwnSet(nodes, d) !! SubtreeSet(nodes, c) {
      ChildDisjoint(dirs, nodes, d, {}, c);
    }
  }

  // A subtree is the directory's own symbols and the subtrees of its children.
  lemma SubtreeSplits(nodes: seq<Symbol>, d: string)
    ensures SubtreeSet(nodes, d) == OwnSet(nodes, d) + BelowAny(nodes, Children(Dirs(nodes), d))
  {
    var dirs := Dirs(nodes);
    DirsClosed(nodes);
    forall s | s in nodes
      ensures s in SubtreeSet(nodes, d) <==> s in OwnSet(nodes, d) + BelowAny(nodes, Children(dirs, d))
    {
      var x := DirectoryOf(s.path);
      assert Under(x, x);
      DirsMember(nodes, x);
      if Under(x, d) && x != d {
        ChildTowards(dirs, x, d);
        assert s in SubtreeSet(nodes, StepTowards(x, d));
      }
      if s in BelowAny(nodes, Children(dirs, d)) {
        var c :| c in Children(dirs, d) && s in SubtreeSet(nodes, c);
        ParentAbove(c);
        UnderTransitive(x, c, d);
      }
    }
  }

  // ---- select_prefixes ------------------------------------------------------------------

  method ChooseTarget(counter: SubtreeCounter, cut: set<string>, split: set<string>) returns (target: Option<string>)
    requires counter.Valid() && cut <= counter.children.Keys
    modifies counter`cache
    ensures counter.Valid()
    ensures var among := Splittable(counter.children.Keys, counter.nodes, cut, split);
        if target.Some? then IsBest(counter.nodes, among, target.value) else among == {}
  {
    ghost var dirs, nodes := counter.children.Keys, counter.nodes;
    target := None;
    var best: nat := 0;
    var rest := cut;
    while rest != {}
      invariant counter.Valid() && rest <= cut
      invariant target.Some? ==> best == Weight(nodes, target.value)
      invariant BestSoFar(dirs, nodes, cut, split, rest, target)
      decreases |rest|
    {
      var d :| d in rest;
      var weight := counter.Subtree(d);
      Consider(dirs, nodes, cut, split, rest, target, d);
      if d !in split && counter.children[d] != {} && weight >= MIN_SPLIT_SYMBOLS
         && (target.None? || best < weight || (best == weight && LexLe(target.value, d))) {
        target, best := Some(d), weight;
      }
      rest := rest - {d};
    }
  }

  ghost predicate BestSoFar(dirs: set<string>, nodes: seq<Symbol>, cut: set<string>, split: set<string>,
                            rest: set<string>, target: Option<string>)
  {
    var among := Splittable(dirs, nodes, cut, split) - rest;
    if target.Some? then IsBest(nodes, among, target.value) else among == {}
  }

  lemma Consider(dirs: set<string>, nodes: seq<Symbol>, cut: set<string>, split: set<string>,
                 rest: set<string>, target: Option<string>, d: string)
    requires BestSoFar(dirs, nodes, cut, split, rest, target) && d in rest && d in cut
    ensures BestSoFar(dirs, nodes, cut, split, rest - {d},
        if d in Splittable(dirs, nodes, cut, split) && (target.None? || KeyLe(nodes, target.value, d))
        then Some(d) else target)
  {
    var among := Splittable(dirs, nodes, cut, split);
    var better := d in among && (target.None? || KeyLe(nodes, target.value, d));
    LexTotal(d, d);
    if d in among {
      assert among - (rest - {d}) == among - rest + {d};
      if target.Some? {
        LexTotal(target.value, d);
        forall e | e in among - rest + {d} ensures KeyLe(nodes, e, if better then d else target.value) {
          if e != d && better { KeyTransitive(nodes, e, target.value, d); }
        }
      }
    } else {
      assert among - (rest - {d}) == among - rest;
    }
  }

  // select_prefixes, before sorting the names
  method SelectCut(nodes: seq<Symbol>, maxComponents: nat) returns (cut: set<string>)
    requires DistinctIds(nodes)
    ensures cut == FinalCut(nodes, maxComponents).cut
  {
    var ownCounts := OwnCounts(nodes);
    var directories := ExpandDirectories(ownCounts.Keys);
    LeavesAreOwners(nodes, ownCounts);
    var children := ChildrenMap(directories);
    var counter := new SubtreeCounter(nodes, ownCounts, children);
    cut := set d | d in directories && '/' !in d;
    var alreadySplit: set<string> := {};
    while |cut| < maxComponents
      invariant counter.Valid() && counter.nodes == nodes && counter.children == children && cut <= children.Keys
      invariant Greedy(children.Keys, nodes, Cut(cut, alreadySplit), maxComponents) == FinalCut(nodes, maxComponents)
      decreases children.Keys - alreadySplit
    {
      var target, newCut := SplitOnce(counter, cut, alreadySplit);
      if target.None? {
        break;
      }
      cut, alreadySplit := newCut, alreadySplit + {target.value};
    }
  }

  // One turn of the loop; None when nothing can be split.
  method SplitOnce(counter: SubtreeCounter, cut: set<string>, split: set<string>)
    returns (target: Option<string>, newCut: set<string>)
    requires counter.Valid() && cut <= counter.children.Keys
    modifies counter`cache
    ensures counter.Valid()
    ensures var among := Splittable(counter.children.Keys, counter.nodes, cut, split);
        if target.None? then among == {}
        else among != {} && target.value == Best(counter.nodes, among) && target.value in cut && target.value !in split
             && newCut == AfterSplit(counter.children.Keys, counter.nodes, cut, target.value)
             && newCut <= counter.children.Keys
  {
    target := ChooseTarget(counter, cut, split);
    newCut := cut;
    if target.Some? {
      BestUnique(counter.nodes, Splittable(counter.children.Keys, counter.nodes, cut, split), target.value,
                 Best(counter.nodes, Splittable(counter.children.Keys, counter.nodes, cut, split)));
      newCut := Split(counter, cut, target.value);
    }
  }

  // cut.discard(target); cut.update(children[target]); keep target if it has symbols of its own
  method Split(counter: SubtreeCounter, cut: set<string>, t: string) returns (newCut: set<string>)
    requires counter.Valid() && cut <= counter.children.Keys && t in cut
    ensures newCut == AfterSplit(counter.children.Keys, counter.nodes, cut, t) && newCut <= counter.children.Keys
  {
    HasOwn(counter.ownCounts, counter.nodes, t);
    SplitIs(counter.children.Keys, counter.nodes, cut, t, counter.children[t]);
    newCut := cut - {t} + counter.children[t];
    if t in counter.ownCounts {
      newCut := newCut + {t};
    }
  }

  lemma SplitIs(dirs: set<string>, nodes: seq<Symbol>, cut: set<string>, t: string, children: set<string>)
    requires children == Children(dirs, t) && cut <= dirs && t in cut
    ensures OwnSet(nodes, t) != {} ==> AfterSplit(dirs, nodes, cut, t) == cut - {t} + children + {t}
    ensures OwnSet(nodes, t) == {} ==> AfterSplit(dirs, nodes, cut, t) == cut - {t} + children
    ensures AfterSplit(dirs, nodes, cut, t) <= dirs
  {
  }

  lemma HasOwn(counts: map<string, nat>, nodes: seq<Symbol>, d: string)
    requires CountsOf(counts, nodes)
    ensures d in counts <==> OwnSet(nodes, d) != {}
  {
    assert |OwnSet(nodes, d)| == 0 <==> OwnSet(nodes, d) == {};
  }

  lemma LeavesAreOwners(nodes: seq<Symbol>, counts: map<string, nat>)
    requires CountsOf(counts, nodes)
    ensures (set leaf, d | leaf in counts.Keys && d in Ancestors(leaf) :: d) == Dirs(nodes)
  {
    forall s | s in nodes ensures DirectoryOf(s.path) in counts {
      assert s in OwnSet(nodes, DirectoryOf(s.path));
      assert |OwnSet(nodes, DirectoryOf(s.path))| > 0;
    }
    forall leaf | leaf in counts ensures exists s :: s in nodes && DirectoryOf(s.path) == leaf {
      assert |OwnSet(nodes, leaf)| > 0;
      var s :| s in OwnSet(nodes, leaf);
    }
  }

  // sorted(cut)
  method SortedNames(names: set<string>) returns (sorted: seq<string>)
    ensures forall n :: n in sorted <==> n in names
    ensures forall i, j | 0 <= i < j < |sorted| :: LexLe(sorted[i], sorted[j]) && sorted[i] != sorted[j]
  {
    sorted := [];
    var rest := names;
    while rest != {}
      invariant rest <= names && forall n :: n in sorted <==> n in names && n !in rest
      invariant forall n, m | n in sorted && m in rest :: LexLe(n, m)
      invariant forall i, j | 0 <= i < j < |sorted| :: LexLe(sorted[i], sorted[j]) && sorted[i] != sorted[j]
      decreases |rest|
    {
      var least := LeastName(rest);
      sorted, rest := sorted + [least], rest - {least};
    }
  }

  method LeastName(names: set<string>) returns (least: string)
    requires names != {}
    ensures least in names && forall n | n in names :: LexLe(least, n)
  {
    least :| least in names;
    LexTotal(least, least);
    var rest := names - {least};
    while rest != {}
      invariant rest <= names && least in names
      invariant forall n | n in names && n !in rest :: LexLe(least, n)
      decreases |rest|
    {
      var n :| n in rest;
      LexTotal(n, least);
      LexTotal(n, n);
      if LexLe(n, least) {
        forall m | m in names && m !in rest ensures LexLe(n, m) { LexTransitive(n, least, m); }
        least := n;
      }
      rest := rest - {n};
    }
  }

  // select_prefixes
  method SelectPrefixes(nodes: seq<Symbol>, maxComponents: nat) returns (prefixes: seq<string>)
    requires DistinctIds(nodes)
    ensures forall p :: p in prefixes <==> p in FinalCut(nodes, maxComponents).cut
    ensures forall i, j | 0 <= i < j < |prefixes| :: LexLe(prefixes[i], prefixes[j]) && prefixes[i] != prefixes[j]
  {
    var cut := SelectCut(nodes, maxComponents);
    prefixes := SortedNames(cut);
  }
}
