// The cut of the directory tree into components (architecture/candidates.py):
// what the greedy splitting keeps, and what each chosen prefix owns.
module ComponentCut {
  import opened Strings
  import opened CodeGraph
  import opened Paths

  const MIN_SPLIT_SYMBOLS: nat := 8

  // ---- The tree ------------------------------------------------------------------

  function Dirs(nodes: seq<Symbol>): set<string> {
    set s, d | s in nodes && d in Ancestors(DirectoryOf(s.path)) :: d
  }

  function Children(dirs: set<string>, d: string): set<string> {
    set c | c in dirs && '/' in c && Parent(c) == d
  }

  function OwnSet(nodes: seq<Symbol>, d: string): set<Symbol> {
    set s | s in nodes && DirectoryOf(s.path) == d
  }

  function SubtreeSet(nodes: seq<Symbol>, d: string): set<Symbol> {
    set s | s in nodes && Under(DirectoryOf(s.path), d)
  }

  // The number of symbols in d or anywhere below it.
  function Weight(nodes: seq<Symbol>, d: string): nat {
    |SubtreeSet(nodes, d)|
  }

  ghost predicate ClosedUpwards(dirs: set<string>) {
    forall d, p | d in dirs && Under(d, p) :: p in dirs
  }

  lemma DirsMember(nodes: seq<Symbol>, d: string)
    ensures d in Dirs(nodes) <==> exists s :: s in nodes && Under(DirectoryOf(s.path), d)
  {
    if s :| s in nodes && Under(DirectoryOf(s.path), d) {
      AncestorsAreAbove(DirectoryOf(s.path), d);
    }
    if d in Dirs(nodes) {
      var s :| s in nodes && d in Ancestors(DirectoryOf(s.path));
      AncestorsAreAbove(DirectoryOf(s.path), d);
    }
  }

  lemma DirsClosed(nodes: seq<Symbol>)
    ensures ClosedUpwards(Dirs(nodes))
  {
    forall d, p | d in Dirs(nodes) && Under(d, p) ensures p in Dirs(nodes) {
      DirsMember(nodes, d);
      var s :| s in nodes && Under(DirectoryOf(s.path), d);
      UnderTransitive(DirectoryOf(s.path), d, p);
      DirsMember(nodes, p);
    }
  }

  // Below a directory, everything is below exactly one child.
  lemma ChildTowards(dirs: set<string>, x: string, d: string)
    requires ClosedUpwards(dirs) && x in dirs && Under(x, d) && x != d
    ensures StepTowards(x, d) in Children(dirs, d) && Under(x, StepTowards(x, d))
  {
    StepFacts(x, d);
  }

  lemma ChildrenApart(dirs: set<string>, d: string, a: string, b: string, x: string)
    requires a in Children(dirs, d) && b in Children(dirs, d) && Under(x, a) && Under(x, b)
    ensures a == b
  {
    if |a| <= |b| {
      UnderInLine(x, a, b);
      if a != b {
        BelowParent(b, a);
        ParentAbove(a);
      }
    } else {
      UnderInLine(x, b, a);
      BelowParent(a, b);
      ParentAbove(b);
    }
  }

  // ---- Greedy splitting -------------------------------------------------------------

  ghost function Splittable(dirs: set<string>, nodes: seq<Symbol>, cut: set<string>, split: set<string>): set<string> {
    set d | d in cut && d !in split && Children(dirs, d) != {} && Weight(nodes, d) >= MIN_SPLIT_SYMBOLS
  }

  // key=(subtree(directory), directory)
  predicate KeyLe(nodes: seq<Symbol>, a: string, b: string) {
    Weight(nodes, a) < Weight(nodes, b) || (Weight(nodes, a) == Weight(nodes, b) && LexLe(a, b))
  }

  ghost predicate IsBest(nodes: seq<Symbol>, among: set<string>, best: string) {
    best in among && forall d | d in among :: KeyLe(nodes, d, best)
  }

  lemma {:induction false} BestExists(nodes: seq<Symbol>, among: set<string>)
    requires among != {}
    ensures exists best :: IsBest(nodes, among, best)
  {
    var d :| d in among;
    LexTotal(d, d);
    if among == {d} {
      assert IsBest(nodes, among, d);
    } else {
      var rest := among - {d};
      BestExists(nodes, rest);
      var b :| IsBest(nodes, rest, b);
      LexTotal(b, d);
      LexTotal(b, b);
      var best := if KeyLe(nodes, d, b) then b else d;
      forall e | e in among ensures KeyLe(nodes, e, best) {
        if e != d { KeyTransitive(nodes, e, b, best); }
      }
      assert IsBest(nodes, among, best);
    }
  }

  lemma KeyTransitive(nodes: seq<Symbol>, a: string, b: string, c: string)
    requires KeyLe(nodes, a, b) && KeyLe(nodes, b, c)
    ensures KeyLe(nodes, a, c)
  {
    if Weight(nodes, a) == Weight(nodes, c) { LexTransitive(a, b, c); }
  }

  lemma BestUnique(nodes: seq<Symbol>, among: set<string>, a: string, b: string)
    requires IsBest(nodes, among, a) && IsBest(nodes, among, b)
    ensures a == b
  {
    LexAntisymmetric(a, b);
  }

  ghost function Best(nodes: seq<Symbol>, among: set<string>): (best: string)
    requires among != {}
    ensures IsBest(nodes, among, best)
  {
    BestExists(nodes, among);
    var best :| IsBest(nodes, among, best);
    best
  }

  function AfterSplit(dirs: set<string>, nodes: seq<Symbol>, cut: set<string>, target: string): set<string> {
    cut - {target} + Children(dirs, target) + (if OwnSet(nodes, target) != {} then {target} else {})
  }

  datatype Cut = Cut(cut: set<string>, split: set<string>)

  // The while loop of select_prefixes: split the heaviest, while there is room.
  ghost function Greedy(dirs: set<string>, nodes: seq<Symbol>, c: Cut, maxComponents: nat): Cut
    requires c.cut <= dirs
    decreases dirs - c.split
  {
    var among := Splittable(dirs, nodes, c.cut, c.split);
    if |c.cut| < maxComponents && among != {} then
      var target := Best(nodes, among);
      Greedy(dirs, nodes, Cut(AfterSplit(dirs, nodes, c.cut, target), c.split + {target}), maxComponents)
    else c
  }

  function TopLevel(dirs: set<string>): set<string> {
    set d | d in dirs && '/' !in d
  }

  ghost function FinalCut(nodes: seq<Symbol>, maxComponents: nat): Cut {
    Greedy(Dirs(nodes), nodes, Cut(TopLevel(Dirs(nodes)), {}), maxComponents)
  }

  // ---- What every split keeps ---------------------------------------------------------

  ghost predicate CutOk(dirs: set<string>, nodes: seq<Symbol>, c: Cut) {
    && c.cut <= dirs && c.split <= dirs
    && TopLevel(dirs) <= c.cut + c.split
    && (forall d | d in c.split :: Children(dirs, d) <= c.cut + c.split)
    && (forall d | d in c.split :: d in c.cut <==> OwnSet(nodes, d) != {})
    && (forall d | d in c.cut + c.split && '/' in d :: Parent(d) in c.split)
  }

  lemma SplitKeepsCut(dirs: set<string>, nodes: seq<Symbol>, c: Cut, target: string)
    requires CutOk(dirs, nodes, c) && target in c.cut && target !in c.split
    ensures CutOk(dirs, nodes, Cut(AfterSplit(dirs, nodes, c.cut, target), c.split + {target}))
  {
  }

  lemma {:induction false} GreedyKeepsCut(dirs: set<string>, nodes: seq<Symbol>, c: Cut, maxComponents: nat)
    requires CutOk(dirs, nodes, c)
    ensures CutOk(dirs, nodes, Greedy(dirs, nodes, c, maxComponents))
    ensures var final := Greedy(dirs, nodes, c, maxComponents);
        |final.cut| >= maxComponents || Splittable(dirs, nodes, final.cut, final.split) == {}
    decreases dirs - c.split
  {
    var among := Splittable(dirs, nodes, c.cut, c.split);
    if |c.cut| < maxComponents && among != {} {
      var target := Best(nodes, among);
      SplitKeepsCut(dirs, nodes, c, target);
      GreedyKeepsCut(dirs, nodes, Cut(AfterSplit(dirs, nodes, c.cut, target), c.split + {target}), maxComponents);
    }
  }

  lemma FinalCutOk(nodes: seq<Symbol>, maxComponents: nat)
    ensures CutOk(Dirs(nodes), nodes, FinalCut(nodes, maxComponents))
    ensures var final := FinalCut(nodes, maxComponents);
        |final.cut| >= maxComponents || Splittable(Dirs(nodes), nodes, final.cut, final.split) == {}
  {
    GreedyKeepsCut(Dirs(nodes), nodes, Cut(TopLevel(Dirs(nodes)), {}), maxComponents);
  }

  // ---- The run of splits -----------------------------------------------------------------

  // It stands in the cut, has not been split, has a subdirectory, and holds at least eight
  // symbols.
  ghost predicate CanSplit(dirs: set<string>, nodes: seq<Symbol>, c: Cut, d: string) {
    && d in c.cut && d !in c.split
    && (exists child :: child in dirs && IsChild(child, d))
    && Weight(nodes, d) >= 8
  }

  ghost predicate IsChild(child: string, d: string) {
    exists name: string :: '/' !in name && child == d + "/" + name
  }

  // Of those that can be split, one with the most symbols is split, by name the last of
  // them; its subdirectories take its place, beside it if it has symbols of its own.
  ghost predicate Splits(dirs: set<string>, nodes: seq<Symbol>, c: Cut, next: Cut, target: string) {
    && CanSplit(dirs, nodes, c, target)
    && (forall d | CanSplit(dirs, nodes, c, d) ::
          Weight(nodes, d) < Weight(nodes, target)
          || (Weight(nodes, d) == Weight(nodes, target) && LexLe(d, target)))
    && next.split == c.split + {target}
    && forall d :: d in next.cut
         <==> (d in c.cut && d != target) || (d in dirs && IsChild(d, target))
              || (d == target && exists s :: s in nodes && DirectoryOf(s.path) == target)
  }

  // One split after the other while there is room for more components.
  ghost predicate SplitRun(dirs: set<string>, nodes: seq<Symbol>, c: Cut, targets: seq<string>, final: Cut,
                           maxComponents: nat)
    decreases |targets|
  {
    if targets == [] then
      c == final && (|c.cut| >= maxComponents || forall d :: !CanSplit(dirs, nodes, c, d))
    else
      |c.cut| < maxComponents
      && exists next :: Splits(dirs, nodes, c, next, targets[0])
                        && SplitRun(dirs, nodes, next, targets[1..], final, maxComponents)
  }

  lemma ChildExact(dirs: set<string>, child: string, d: string)
    ensures child in Children(dirs, d) <==> child in dirs && IsChild(child, d)
  {
    if name: string :| '/' !in name && child == d + "/" + name {
      assert child[|d|] == '/';
      LastSlashAt(child, |d|);
    }
  }

  lemma OwnExact(nodes: seq<Symbol>, d: string)
    ensures OwnSet(nodes, d) != {} <==> exists s :: s in nodes && DirectoryOf(s.path) == d
  {
    if s :| s in nodes && DirectoryOf(s.path) == d {
      assert s in OwnSet(nodes, d);
    }
  }

  lemma SplittableExact(dirs: set<string>, nodes: seq<Symbol>, c: Cut, d: string)
    ensures d in Splittable(dirs, nodes, c.cut, c.split) <==> CanSplit(dirs, nodes, c, d)
  {
    forall child ensures child in Children(dirs, d) <==> child in dirs && IsChild(child, d) {
      ChildExact(dirs, child, d);
    }
    assert Children(dirs, d) != {} <==> exists child :: child in Children(dirs, d);
  }

  lemma SplitsBest(dirs: set<string>, nodes: seq<Symbol>, c: Cut, target: string)
    requires IsBest(nodes, Splittable(dirs, nodes, c.cut, c.split), target)
    ensures Splits(dirs, nodes, c, Cut(AfterSplit(dirs, nodes, c.cut, target), c.split + {target}), target)
  {
    SplittableExact(dirs, nodes, c, target);
    forall d | CanSplit(dirs, nodes, c, d) ensures KeyLe(nodes, d, target) {
      SplittableExact(dirs, nodes, c, d);
    }
    forall d
      ensures d in AfterSplit(dirs, nodes, c.cut, target)
         <==> (d in c.cut && d != target) || (d in dirs && IsChild(d, target))
              || (d == target && exists s :: s in nodes && DirectoryOf(s.path) == target)
    {
      ChildExact(dirs, d, target);
      OwnExact(nodes, target);
    }
  }

  lemma {:induction false} GreedyRuns(dirs: set<string>, nodes: seq<Symbol>, c: Cut, maxComponents: nat)
    returns (targets: seq<string>)
    requires c.cut <= dirs
    ensures SplitRun(dirs, nodes, c, targets, Greedy(dirs, nodes, c, maxComponents), maxComponents)
    decreases dirs - c.split
  {
    var among := Splittable(dirs, nodes, c.cut, c.split);
    targets := [];
    if |c.cut| < maxComponents && among != {} {
      var target := Best(nodes, among);
      var next := Cut(AfterSplit(dirs, nodes, c.cut, target), c.split + {target});
      SplitsBest(dirs, nodes, c, target);
      var rest := GreedyRuns(dirs, nodes, next, maxComponents);
      targets := [target] + rest;
      assert targets[1..] == rest;
    } else if |c.cut| < maxComponents {
      forall d ensures !CanSplit(dirs, nodes, c, d) {
        SplittableExact(dirs, nodes, c, d);
      }
    }
  }

  // The cut is reached from the top-level directories by splitting the heaviest directory
  // that can be split, again and again, until there are enough or none can be split.
  lemma FinalCutIsGreedy(nodes: seq<Symbol>, maxComponents: nat) returns (targets: seq<string>)
    ensures (var dirs := Dirs(nodes);
             SplitRun(dirs, nodes, Cut(set d | d in dirs && '/' !in d, {}), targets, FinalCut(nodes, maxComponents),
                      maxComponents))
  {
    targets := GreedyRuns(Dirs(nodes), nodes, Cut(TopLevel(Dirs(nodes)), {}), maxComponents);
  }

  // ---- Where a directory stands in a cut ------------------------------------------------

  predicate Whole(c: Cut, a: string) {
    a in c.cut && a !in c.split
  }

  // A directory is split, or lies under a prefix that was kept whole.
  lemma {:induction false} Covered(dirs: set<string>, nodes: seq<Symbol>, c: Cut, d: string)
    requires ClosedUpwards(dirs) && CutOk(dirs, nodes, c) && d in dirs
    ensures d in c.split || exists a :: Whole(c, a) && Under(d, a)
    decreases |d|
  {
    if d in c.cut {
      assert Under(d, d);
    } else if d !in c.split {
      assert d !in TopLevel(dirs);
      ParentAbove(d);
      var p := Parent(d);
      Covered(dirs, nodes, c, p);
      if p in c.split {
        assert false;
      } else {
        var a :| Whole(c, a) && Under(p, a);
        UnderTransitive(d, p, a);
      }
    }
  }

  // Below a whole prefix, nothing is in the cut and nothing is split.
  lemma {:induction false} NothingBelowWhole(dirs: set<string>, nodes: seq<Symbol>, c: Cut, a: string, b: string)
    requires CutOk(dirs, nodes, c) && Whole(c, a) && b in c.cut + c.split && Under(b, a)
    ensures b == a
    decreases |b|
  {
    if b != a {
      BelowParent(b, a);
      NothingBelowWhole(dirs, nodes, c, a, Parent(b));
    }
  }

  // ---- Ownership ------------------------------------------------------------------------

  // p is the longest prefix of the cut at or above d.
  ghost predicate Owns(c: Cut, p: string, d: string) {
    p in c.cut && Under(d, p) && forall q | q in c.cut && Under(d, q) :: |q| <= |p|
  }

  lemma OwnsUnique(c: Cut, p: string, q: string, d: string)
    requires Owns(c, p, d) && Owns(c, q, d)
    ensures p == q
  {
    assert p == d[..|p|] && q == d[..|q|];
  }

  // A directory with symbols has an owner: itself if it was split, otherwise the
  // whole prefix above it.
  lemma OwnerOf(nodes: seq<Symbol>, c: Cut, s: Symbol) returns (p: string)
    requires CutOk(Dirs(nodes), nodes, c) && s in nodes
    ensures Owns(c, p, DirectoryOf(s.path))
    ensures if DirectoryOf(s.path) in c.split then p == DirectoryOf(s.path) else Whole(c, p)
  {
    var d := DirectoryOf(s.path);
    var dirs := Dirs(nodes);
    DirsMember(nodes, d);
    DirsClosed(nodes);
    Covered(dirs, nodes, c, d);
    if d in c.split {
      assert s in OwnSet(nodes, d);
      p := d;
    } else {
      p :| Whole(c, p) && Under(d, p);
      forall q | q in c.cut && Under(d, q) ensures |q| <= |p| {
        if |q| > |p| {
          UnderInLine(d, p, q);
          NothingBelowWhole(dirs, nodes, c, p, q);
        }
      }
    }
  }

  // A whole prefix owns its subtree; a split one that was kept owns exactly its
  // direct symbols.
  lemma OwnershipExact(nodes: seq<Symbol>, c: Cut, p: string, s: Symbol)
    requires CutOk(Dirs(nodes), nodes, c) && p in c.cut && s in nodes
    ensures Owns(c, p, DirectoryOf(s.path))
       <==> if p in c.split then DirectoryOf(s.path) == p else Under(DirectoryOf(s.path), p)
  {
    var d := DirectoryOf(s.path);
    var owner := OwnerOf(nodes, c, s);
    if Owns(c, p, d) {
      OwnsUnique(c, p, owner, d);
    }
    if p !in c.split && Under(d, p) {
      if d in c.split {
        NothingBelowWhole(Dirs(nodes), nodes, c, p, d);
      } else if |owner| <= |p| {
        UnderInLine(d, owner, p);
        NothingBelowWhole(Dirs(nodes), nodes, c, owner, p);
      } else {
        UnderInLine(d, p, owner);
        NothingBelowWhole(Dirs(nodes), nodes, c, p, owner);
      }
    }
  }
}
