// The overview and the drill-down agree (code_graph/viz.py).
module DrilldownLaws {
  import opened Lists
  import opened CodeGraph
  import opened Paths
  import opened ComponentCut
  import opened DirectoryTree

  // ---- Buckets are the next directories --------------------------------------------------

  lemma {:induction false} PrefixAfter(p: string, rest: string, depth: nat)
    requires CountSlashes(p) < depth
    ensures PrefixAtDepth(p + rest, depth) == p + PrefixAtDepth(rest, depth - CountSlashes(p))
    decreases |p|
  {
    if p == "" {
      assert p + rest == rest;
    } else {
      var deeper := if p[0] == '/' then depth - 1 else depth;
      PrefixAfter(p[1..], rest, deeper);
      PrefixCons(p[0], p[1..] + rest, depth);
      HeadFirst(p, rest);
      HeadFirst(p, PrefixAtDepth(rest, depth - CountSlashes(p)));
    }
  }

  lemma HeadFirst(p: string, rest: string)
    requires p != ""
    ensures p + rest == [p[0]] + (p[1..] + rest)
  {
  }

  lemma PrefixCons(c: char, text: string, depth: nat)
    requires c == '/' ==> depth > 1
    ensures PrefixAtDepth([c] + text, depth) == [c] + PrefixAtDepth(text, if c == '/' then depth - 1 else depth)
  {
    assert ([c] + text)[1..] == text;
  }

  lemma {:induction false} CountAppend(p: string, q: string)
    ensures CountSlashes(p + q) == CountSlashes(p) + CountSlashes(q)
    decreases |p|
  {
    if p == "" {
      assert p + q == q;
    } else {
      assert (p + q)[0] == p[0] && (p + q)[1..] == p[1..] + q;
      CountAppend(p[1..], q);
    }
  }

  lemma {:induction false} FirstPartIs(x: string, i: nat)
    requires i <= |x|
    ensures FirstPart(x, i) == x[..i] + PrefixAtDepth(x[i..], 1)
    decreases |x| - i
  {
    if i < |x| && x[i] != '/' {
      FirstPartIs(x, i + 1);
      assert x[i..][1..] == x[i + 1..];
    }
  }

  lemma UnderIsStart(x: string, d: string)
    ensures Under(x, d) && x != d <==> d + "/" <= x
  {
    if d + "/" <= x {
      assert x[|d|] == (d + "/")[|d|];
    }
  }

  // The bucket of a symbol below the directory is the next directory towards it.
  lemma BucketIsStep(directory: string, s: Symbol)
    requires Under(DirectoryOf(s.path), directory) && DirectoryOf(s.path) != directory
    ensures RawBucket(directory, s) == Some(StepTowards(DirectoryOf(s.path), directory))
  {
    UnderIsStart(DirectoryOf(s.path), directory);
    PrefixIsStep(DirectoryOf(s.path), directory);
  }

  lemma PrefixIsStep(x: string, directory: string)
    requires Under(x, directory) && x != directory
    ensures PrefixAtDepth(x, CountSlashes(directory) + 2) == StepTowards(x, directory)
  {
    PrefixFrom(x, directory);
    FirstPartIs(x, |directory| + 1);
  }

  lemma PrefixFrom(x: string, directory: string)
    requires Under(x, directory) && x != directory
    ensures PrefixAtDepth(x, CountSlashes(directory) + 2)
        == x[..|directory| + 1] + PrefixAtDepth(x[|directory| + 1..], 1)
  {
    var start, rest := directory + "/", x[|directory| + 1..];
    assert x[..|directory| + 1] == start;
    assert x == start + rest;
    SlashesThenOne(directory);
    PrefixAfter(start, rest, CountSlashes(directory) + 2);
  }

  lemma SlashesThenOne(directory: string)
    ensures CountSlashes(directory + "/") == CountSlashes(directory) + 1
  {
    CountAppend(directory, "/");
    assert CountSlashes("/") == 1;
  }

  lemma ChildIsNotSelf(directory: string, c: string)
    requires '/' in c && Parent(c) == directory
    ensures c != directory + SELF_SUFFIX
  {
    assert c[|directory|] == '/';
    assert (directory + SELF_SUFFIX)[|directory|] == ':';
  }

  // Which symbols fall into the bucket of a child.
  lemma InBucketOfChild(nodes: seq<Symbol>, directory: string, c: string, s: Symbol)
    requires c in Children(Dirs(nodes), directory) && s in nodes
    ensures RawBucket(directory, s) == Some(c) <==> Under(DirectoryOf(s.path), c)
  {
    var x := DirectoryOf(s.path);
    ParentAbove(c);
    ChildIsNotSelf(directory, c);
    UnderIsStart(x, directory);
    if Under(x, c) {
      UnderTransitive(x, c, directory);
    }
    if Under(x, directory) && x != directory {
      BucketIsStep(directory, s);
      var step := StepTowards(x, directory);
      DirsMember(nodes, x);
      DirsClosed(nodes);
      assert Under(x, x);
      ChildTowards(Dirs(nodes), x, directory);
      if Under(x, c) {
        ChildrenApart(Dirs(nodes), directory, step, c, x);
      }
    }
  }

  // Every bucket but the directory's own is a child.
  lemma BucketIsChild(nodes: seq<Symbol>, directory: string, s: Symbol)
    requires s in nodes && RawBucket(directory, s).Some? && DirectoryOf(s.path) != directory
    ensures RawBucket(directory, s).value in Children(Dirs(nodes), directory)
  {
    var x := DirectoryOf(s.path);
    UnderIsStart(x, directory);
    BucketIsStep(directory, s);
    DirsMember(nodes, x);
    DirsClosed(nodes);
    assert Under(x, x);
    ChildTowards(Dirs(nodes), x, directory);
  }

  // ---- Counting ------------------------------------------------------------------------------

  function CountIn(modules: seq<VizModule>, bucket: string): nat {
    if modules == [] then 0 else if modules[0].bucket == bucket then modules[0].count else CountIn(modules[1..], bucket)
  }

  function Total(modules: seq<VizModule>): nat {
    if modules == [] then 0 else modules[0].count + Total(modules[1..])
  }

  ghost predicate DistinctBuckets(modules: seq<VizModule>) {
    && (forall i, j | 0 <= i < j < |modules| :: modules[i].bucket != modules[j].bucket)
    && forall m | m in modules :: m.count > 0
  }

  lemma {:induction false} TallyLaw(modules: seq<VizModule>, bucket: string, other: string)
    ensures CountIn(Tally(modules, bucket), other) == CountIn(modules, other) + if other == bucket then 1 else 0
    ensures Total(Tally(modules, bucket)) == Total(modules) + 1
  {
    if modules == [] {
    } else if modules[0].bucket == bucket {
      assert Tally(modules, bucket)[1..] == modules[1..];
    } else {
      TallyLaw(modules[1..], bucket, other);
      assert Tally(modules, bucket)[1..] == Tally(modules[1..], bucket);
    }
  }

  lemma PrependBucket(m: VizModule, modules: seq<VizModule>)
    requires DistinctBuckets(modules) && m.count > 0 && forall n | n in modules :: n.bucket != m.bucket
    ensures DistinctBuckets([m] + modules)
  {
    forall j: nat | j < |modules| ensures modules[j].bucket != m.bucket {
      assert modules[j] in modules;
    }
  }

  lemma {:induction false} TallyDistinct(modules: seq<VizModule>, bucket: string)
    requires DistinctBuckets(modules)
    ensures DistinctBuckets(Tally(modules, bucket))
    ensures forall m | m in Tally(modules, bucket) ::
        m.bucket == bucket || exists n :: n in modules && n.bucket == m.bucket
  {
    if modules == [] {
      assert Tally(modules, bucket) == [VizModule(bucket, 1)];
    } else {
      var tail := modules[1..];
      forall n | n in tail ensures n.bucket != modules[0].bucket && n in modules {
        var j: nat :| j < |tail| && tail[j] == n;
        assert modules[j + 1] == n;
      }
      assert DistinctBuckets(tail);
      if modules[0].bucket == bucket {
        PrependBucket(VizModule(bucket, modules[0].count + 1), tail);
      } else {
        TallyDistinct(tail, bucket);
        PrependBucket(modules[0], Tally(tail, bucket));
        assert Tally(modules, bucket) == [modules[0]] + Tally(tail, bucket);
      }
    }
  }

  lemma {:induction false} TallyAllLaw(buckets: seq<string>, bucket: string)
    ensures CountIn(TallyAll(buckets), bucket) == multiset(buckets)[bucket]
    ensures Total(TallyAll(buckets)) == |buckets|
    ensures DistinctBuckets(TallyAll(buckets))
  {
    if buckets != [] {
      TallyAllLaw(buckets[..|buckets| - 1], bucket);
      TallyLaw(TallyAll(buckets[..|buckets| - 1]), buckets[|buckets| - 1], bucket);
      TallyDistinct(TallyAll(buckets[..|buckets| - 1]), buckets[|buckets| - 1]);
      InitLast(buckets);
    }
  }

  // A module list says of every bucket how much it holds.
  lemma {:induction false} ModuleListed(modules: seq<VizModule>, m: VizModule)
    requires DistinctBuckets(modules)
    ensures m in modules <==> m.count > 0 && CountIn(modules, m.bucket) == m.count
  {
    if modules != [] {
      var tail := modules[1..];
      forall n | n in tail ensures n.bucket != modules[0].bucket && n in modules {
        var j: nat :| j < |tail| && tail[j] == n;
        assert modules[j + 1] == n;
      }
      assert DistinctBuckets(tail);
      ModuleListed(tail, m);
      assert modules[0] in modules;
      assert m in modules <==> m == modules[0] || m in tail;
    }
  }

  // The symbols in a bucket.
  ghost function InBucket(directory: string, hasOwn: bool, nodes: seq<Symbol>, bucket: string): set<Symbol> {
    set s | s in nodes && Bucket(directory, hasOwn)(s) == [bucket]
  }

  lemma InBucketSnoc(directory: string, hasOwn: bool, nodes: seq<Symbol>, s: Symbol, bucket: string)
    ensures InBucket(directory, hasOwn, nodes + [s], bucket)
         == InBucket(directory, hasOwn, nodes, bucket) + if Bucket(directory, hasOwn)(s) == [bucket] then {s} else {}
  {
    assert forall t :: t in nodes + [s] <==> t in nodes || t == s;
  }

  lemma {:induction false} BucketSize(directory: string, hasOwn: bool, nodes: seq<Symbol>, bucket: string)
    requires DistinctIds(nodes)
    ensures multiset(FlatMap(nodes, Bucket(directory, hasOwn)))[bucket] == |InBucket(directory, hasOwn, nodes, bucket)|
  {
    if nodes == [] {
      assert InBucket(directory, hasOwn, nodes, bucket) == {};
    } else {
      var init, last := nodes[..|nodes| - 1], nodes[|nodes| - 1];
      InitLast(nodes);
      BucketSize(directory, hasOwn, init, bucket);
      InBucketSnoc(directory, hasOwn, init, last, bucket);
      NewId(nodes, |nodes| - 1);
      assert last !in InBucket(directory, hasOwn, init, bucket);
      OneBucket(directory, hasOwn, last, bucket);
    }
  }

  lemma OneBucket(directory: string, hasOwn: bool, s: Symbol, bucket: string)
    ensures multiset(Bucket(directory, hasOwn)(s))[bucket] == if Bucket(directory, hasOwn)(s) == [bucket] then 1 else 0
  {
  }

  // ---- One expansion --------------------------------------------------------------------------

  // What expanding a directory with subdirectories should show.
  function Expected(nodes: seq<Symbol>, d: string): set<VizModule> {
    (set c | c in Children(Dirs(nodes), d) :: VizModule(c, Weight(nodes, c)))
    + (if OwnSet(nodes, d) != {} then {VizModule(d + SELF_SUFFIX, |OwnSet(nodes, d)|)} else {})
  }

  // The directory of the symbol is this one, or below it.
  predicate LiesUnder(s: Symbol, d: string) {
    DirectoryOf(s.path) == d || LiesDeeper(s, d)
  }

  predicate LiesDeeper(s: Symbol, d: string) {
    d + "/" <= DirectoryOf(s.path)
  }

  // A node for every directory a symbol lies under, and one for the own files of those with
  // own files and others below; each counts its symbols.
  lemma OverviewExact(nodes: seq<Symbol>, m: VizModule)
    ensures m in Overview(nodes) <==> ShowsDirectory(nodes, m) || ShowsOwnFiles(nodes, m)
  {
    DirectoryShown(nodes, m.bucket, m);
    if d :| m.bucket == d + "::__files__" && ShowsFilesOf(nodes, d, m) {
      DirectoryShown(nodes, d, m);
    }
    if d :| d in Dirs(nodes) && m in WithFiles(nodes, d) {
      DirectoryShown(nodes, d, m);
    }
  }

  // The nodes of one directory.
  lemma DirectoryShown(nodes: seq<Symbol>, d: string, m: VizModule)
    ensures d in Dirs(nodes) && m in WithFiles(nodes, d)
       <==> (m.bucket == d && ShowsDirectory(nodes, m)) || (m.bucket == d + "::__files__" && ShowsFilesOf(nodes, d, m))
  {
    UnderAll(nodes, d);
    TwoNodes(nodes, d, m);
    DeeperIsUnder(nodes, d);
  }

  lemma TwoNodes(nodes: seq<Symbol>, d: string, m: VizModule)
    ensures m in WithFiles(nodes, d)
       <==> (m.bucket == d && m.count == |SubtreeSet(nodes, d)|)
            || (m.bucket == d + "::__files__" && Children(Dirs(nodes), d) != {} && m.count == |OwnSet(nodes, d)| >= 1)
  {
    NoneIsEmpty(OwnSet(nodes, d));
  }

  lemma NoneIsEmpty<T>(xs: set<T>)
    ensures xs != {} <==> |xs| >= 1
  {
  }

  lemma DeeperIsUnder(nodes: seq<Symbol>, d: string)
    ensures SomeDeeper(nodes, d) ==> SomeUnder(nodes, d)
  {
    if s :| s in nodes && LiesDeeper(s, d) {
      assert LiesUnder(s, d);
    }
  }

  ghost predicate SomeUnder(nodes: seq<Symbol>, d: string) {
    exists s :: s in nodes && LiesUnder(s, d)
  }

  ghost predicate SomeDeeper(nodes: seq<Symbol>, d: string) {
    exists s :: s in nodes && LiesDeeper(s, d)
  }

  function AllUnder(nodes: seq<Symbol>, d: string): set<Symbol> {
    set s | s in nodes && LiesUnder(s, d)
  }

  function AllIn(nodes: seq<Symbol>, d: string): set<Symbol> {
    set s | s in nodes && DirectoryOf(s.path) == d
  }

  ghost predicate ShowsDirectory(nodes: seq<Symbol>, m: VizModule) {
    SomeUnder(nodes, m.bucket) && m.count == |AllUnder(nodes, m.bucket)|
  }

  ghost predicate ShowsOwnFiles(nodes: seq<Symbol>, m: VizModule) {
    exists d :: m.bucket == d + "::__files__" && ShowsFilesOf(nodes, d, m)
  }

  ghost predicate ShowsFilesOf(nodes: seq<Symbol>, d: string, m: VizModule) {
    SomeDeeper(nodes, d) && m.count == |AllIn(nodes, d)| >= 1
  }

  lemma UnderAll(nodes: seq<Symbol>, d: string)
    ensures d in Dirs(nodes) <==> SomeUnder(nodes, d)
    ensures SubtreeSet(nodes, d) == AllUnder(nodes, d) && OwnSet(nodes, d) == AllIn(nodes, d)
    ensures Children(Dirs(nodes), d) != {} <==> SomeDeeper(nodes, d)
  {
    DirsMember(nodes, d);
    forall s: Symbol ensures Under(DirectoryOf(s.path), d) <==> LiesUnder(s, d) {
      UnderIsStart(DirectoryOf(s.path), d);
    }
    if s :| s in nodes && LiesDeeper(s, d) {
      var c := StepTowards(DirectoryOf(s.path), d);
      DirsMember(nodes, c);
      assert c in Children(Dirs(nodes), d);
    }
    if c :| c in Children(Dirs(nodes), d) {
      DirsMember(nodes, c);
      var s :| s in nodes && Under(DirectoryOf(s.path), c);
      ChildIsDeeper(DirectoryOf(s.path), c, d);
      assert LiesDeeper(s, d);
    }
  }

  lemma ChildIsDeeper(x: string, c: string, d: string)
    requires '/' in c && Parent(c) == d && Under(x, c)
    ensures d + "/" <= x
  {
    assert d + "/" <= c;
  }

  // The overview shows all of these, with the same counts.
  lemma ExpectedInOverview(nodes: seq<Symbol>, d: string)
    requires d in Dirs(nodes) && Children(Dirs(nodes), d) != {}
    ensures Expected(nodes, d) <= Overview(nodes)
  {
    forall m | m in Expected(nodes, d) ensures m in Overview(nodes) {
      if m == VizModule(d + SELF_SUFFIX, |OwnSet(nodes, d)|) && OwnSet(nodes, d) != {} {
        assert m in WithFiles(nodes, d);
      } else {
        assert m in WithFiles(nodes, m.bucket);
      }
    }
  }

  // No directory name ends with the suffix of file nodes, or at least none that matters here.
  ghost predicate Agreeable(nodes: seq<Symbol>, d: string) {
    && !Tagged(d)
    && ((forall c | c in Children(Dirs(nodes), d) :: !Tagged(c))
        || (OwnSet(nodes, d) != {} && exists c | c in Children(Dirs(nodes), d) :: !Tagged(c)))
  }

  lemma HasOwnIs(nodes: seq<Symbol>, d: string)
    ensures HasOwnSymbols(d, nodes) <==> OwnSet(nodes, d) != {}
  {
    if s :| s in nodes && DirectoryOf(s.path) == d {
      assert s in OwnSet(nodes, d);
    }
    if OwnSet(nodes, d) != {} {
      var s :| s in OwnSet(nodes, d);
    }
  }

  lemma HasChildrenIs(nodes: seq<Symbol>, d: string)
    ensures HasChildren(d, nodes) <==> exists c :: c in Children(Dirs(nodes), d) && !Tagged(c)
  {
    TaggedSelf(d);
    if HasChildren(d, nodes) {
      var s :| s in nodes && InChild(d, s);
      BucketIsChild(nodes, d, s);
    }
    if c :| c in Children(Dirs(nodes), d) && !Tagged(c) {
      DirsMember(nodes, c);
      var s :| s in nodes && Under(DirectoryOf(s.path), c);
      InBucketOfChild(nodes, d, c, s);
      assert InChild(d, s);
    }
  }

  lemma ChildBucket(nodes: seq<Symbol>, d: string, hasOwn: bool, c: string)
    requires c in Children(Dirs(nodes), d)
    ensures InBucket(d, hasOwn, nodes, c) == if !hasOwn && Tagged(c) then {} else SubtreeSet(nodes, c)
  {
    forall s | s in nodes
      ensures Bucket(d, hasOwn)(s) == [c] <==> Under(DirectoryOf(s.path), c) && (hasOwn || !Tagged(c))
    {
      InBucketOfChild(nodes, d, c, s);
    }
  }

  lemma OwnBucket(nodes: seq<Symbol>, d: string)
    ensures InBucket(d, true, nodes, d + SELF_SUFFIX) == OwnSet(nodes, d)
  {
    forall s | s in nodes ensures RawBucket(d, s) == Some(d + SELF_SUFFIX) <==> DirectoryOf(s.path) == d {
      if RawBucket(d, s).Some? && DirectoryOf(s.path) != d {
        BucketIsChild(nodes, d, s);
        ChildIsNotSelf(d, RawBucket(d, s).value);
      }
    }
  }

  lemma ModulesCount(nodes: seq<Symbol>, d: string, m: VizModule)
    requires DistinctIds(nodes)
    ensures m in TallyAll(Buckets(d, nodes))
        <==> m.count > 0 && m.count == |InBucket(d, HasOwnSymbols(d, nodes), nodes, m.bucket)|
  {
    TallyAllLaw(Buckets(d, nodes), m.bucket);
    BucketSize(d, HasOwnSymbols(d, nodes), nodes, m.bucket);
    ModuleListed(TallyAll(Buckets(d, nodes)), m);
  }

  lemma WeightPositive(nodes: seq<Symbol>, c: string)
    requires c in Dirs(nodes)
    ensures Weight(nodes, c) > 0
  {
    DirsMember(nodes, c);
    var s :| s in nodes && Under(DirectoryOf(s.path), c);
    assert s in SubtreeSet(nodes, c);
  }

  lemma FilledBucket(nodes: seq<Symbol>, d: string, hasOwn: bool, bucket: string)
    requires |InBucket(d, hasOwn, nodes, bucket)| > 0 && hasOwn == HasOwnSymbols(d, nodes)
    ensures bucket in Children(Dirs(nodes), d) || (hasOwn && bucket == d + SELF_SUFFIX)
  {
    var s :| s in InBucket(d, hasOwn, nodes, bucket);
    if DirectoryOf(s.path) != d {
      BucketIsChild(nodes, d, s);
    }
  }

  lemma AgreeableShows(nodes: seq<Symbol>, d: string, m: VizModule)
    requires DistinctIds(nodes) && Agreeable(nodes, d)
    ensures m in TallyAll(Buckets(d, nodes)) <==> m in Expected(nodes, d)
  {
    HasOwnIs(nodes, d);
    ModulesCount(nodes, d, m);
    AgreeableCount(nodes, d, m.bucket);
    ExpectedIs(nodes, d, m);
  }

  lemma ExpectedIs(nodes: seq<Symbol>, d: string, m: VizModule)
    ensures m in Expected(nodes, d)
       <==> (m.bucket in Children(Dirs(nodes), d) && m.count == Weight(nodes, m.bucket))
            || (m.bucket == d + SELF_SUFFIX && OwnSet(nodes, d) != {} && m.count == |OwnSet(nodes, d)|)
  {
    if m.bucket in Children(Dirs(nodes), d) { ChildIsNotSelf(d, m.bucket); }
  }

  // What an agreeable expansion counts in a bucket.
  lemma AgreeableCount(nodes: seq<Symbol>, d: string, bucket: string)
    requires Agreeable(nodes, d)
    ensures (var n := |InBucket(d, HasOwnSymbols(d, nodes), nodes, bucket)|;
             if bucket in Children(Dirs(nodes), d) then n == Weight(nodes, bucket) > 0 && bucket != d + SELF_SUFFIX
             else if bucket == d + SELF_SUFFIX && OwnSet(nodes, d) != {} then n == |OwnSet(nodes, d)| > 0
             else n == 0)
  {
    var hasOwn := HasOwnSymbols(d, nodes);
    HasOwnIs(nodes, d);
    if bucket in Children(Dirs(nodes), d) {
      ChildIsNotSelf(d, bucket);
      ChildBucket(nodes, d, hasOwn, bucket);
      WeightPositive(nodes, bucket);
    } else if bucket == d + SELF_SUFFIX && OwnSet(nodes, d) != {} {
      OwnBucket(nodes, d);
    } else if |InBucket(d, hasOwn, nodes, bucket)| > 0 {
      FilledBucket(nodes, d, hasOwn, bucket);
    }
  }

  ghost predicate ShowsChildren(e: Expansion, nodes: seq<Symbol>, d: string) {
    e.Modules? && DistinctBuckets(e.modules) && forall m :: m in e.modules <==> m in Expected(nodes, d)
  }

  lemma AgreeableExpansion(g: Graph, d: string)
    requires DistinctIds(g.nodes) && Children(Dirs(g.nodes), d) != {} && Agreeable(g.nodes, d)
    ensures Expanded(g, d) == ModuleExpansion(g, d) && ShowsChildren(Expanded(g, d), g.nodes, d)
  {
    HasChildrenIs(g.nodes, d);
    TallyAllLaw(Buckets(d, g.nodes), d);
    forall m ensures m in TallyAll(Buckets(d, g.nodes)) <==> m in Expected(g.nodes, d) {
      AgreeableShows(g.nodes, d, m);
    }
  }

  lemma ChildDropped(g: Graph, d: string, c: string)
    requires DistinctIds(g.nodes) && OwnSet(g.nodes, d) == {} && c in Children(Dirs(g.nodes), d) && Tagged(c)
    ensures VizModule(c, Weight(g.nodes, c)) in Expected(g.nodes, d)
    ensures VizModule(c, Weight(g.nodes, c)) !in TallyAll(Buckets(d, g.nodes))
  {
    HasOwnIs(g.nodes, d);
    ChildBucket(g.nodes, d, false, c);
    ModulesCount(g.nodes, d, VizModule(c, Weight(g.nodes, c)));
  }

  // Expanding a directory with subdirectories shows exactly its children, and its
  // own files, with the counts of the overview, if and only if the suffix of file
  // nodes does not get in the way.
  lemma ExpansionAgreesExactly(g: Graph, d: string)
    requires DistinctIds(g.nodes) && d in Dirs(g.nodes) && Children(Dirs(g.nodes), d) != {}
    ensures ShowsChildren(Expanded(g, d), g.nodes, d) <==> Agreeable(g.nodes, d)
  {
    if Agreeable(g.nodes, d) {
      AgreeableExpansion(g, d);
    } else {
      HasChildrenIs(g.nodes, d);
      if !Tagged(d) && HasChildren(d, g.nodes) {
        var c :| c in Children(Dirs(g.nodes), d) && Tagged(c);
        ChildDropped(g, d, c);
      }
    }
  }

  // ---- Conservation -----------------------------------------------------------------------------

  ghost function Bucketed(nodes: seq<Symbol>, f: Symbol -> seq<string>): set<Symbol> {
    set s | s in nodes && f(s) != []
  }

  lemma BucketedSnoc(nodes: seq<Symbol>, s: Symbol, f: Symbol -> seq<string>)
    ensures Bucketed(nodes + [s], f) == Bucketed(nodes, f) + if f(s) != [] then {s} else {}
  {
    assert forall t :: t in nodes + [s] <==> t in nodes || t == s;
  }

  lemma {:induction false} BucketedSize(nodes: seq<Symbol>, f: Symbol -> seq<string>)
    requires DistinctIds(nodes) && forall s :: |f(s)| <= 1
    ensures |FlatMap(nodes, f)| == |Bucketed(nodes, f)|
  {
    if nodes == [] {
      assert Bucketed(nodes, f) == {};
    } else {
      var init, last := nodes[..|nodes| - 1], nodes[|nodes| - 1];
      InitLast(nodes);
      NewId(nodes, |nodes| - 1);
      BucketedSize(init, f);
      OneMoreBucketed(init, last, f);
    }
  }

  lemma OneMoreBucketed(init: seq<Symbol>, last: Symbol, f: Symbol -> seq<string>)
    requires last !in init && |f(last)| <= 1 && |FlatMap(init, f)| == |Bucketed(init, f)|
    ensures |FlatMap(init + [last], f)| == |Bucketed(init + [last], f)|
  {
    FlatMapSnoc(init, f, last);
    BucketedSnoc(init, last, f);
    assert last !in Bucketed(init, f);
  }

  lemma BucketedIsSubtree(nodes: seq<Symbol>, d: string)
    requires Agreeable(nodes, d)
    ensures Bucketed(nodes, Bucket(d, HasOwnSymbols(d, nodes))) == SubtreeSet(nodes, d)
  {
    HasOwnIs(nodes, d);
    forall s | s in nodes
      ensures Bucket(d, HasOwnSymbols(d, nodes))(s) != [] <==> Under(DirectoryOf(s.path), d)
    {
      UnderIsStart(DirectoryOf(s.path), d);
      if DirectoryOf(s.path) == d {
        assert s in OwnSet(nodes, d);
      } else if RawBucket(d, s).Some? {
        BucketIsChild(nodes, d, s);
      }
    }
  }

  // The counts an agreeable expansion shows add up to the subtree of the directory.
  lemma ExpansionConserves(g: Graph, d: string)
    requires DistinctIds(g.nodes) && d in Dirs(g.nodes) && Children(Dirs(g.nodes), d) != {} && Agreeable(g.nodes, d)
    ensures Expanded(g, d).Modules? && Total(Expanded(g, d).modules) == Weight(g.nodes, d)
  {
    AgreeableExpansion(g, d);
    TallyAllLaw(Buckets(d, g.nodes), d);
    BucketedSize(g.nodes, Bucket(d, HasOwnSymbols(d, g.nodes)));
    BucketedIsSubtree(g.nodes, d);
  }

  // ---- The edges shown ----------------------------------------------------------------------------

  // The symbol lies in a child directory or below it, or directly in the directory itself.
  predicate LiesIn(nodes: seq<Symbol>, d: string, s: Symbol, bucket: string) {
    || (bucket in Children(Dirs(nodes), d) && Under(DirectoryOf(s.path), bucket))
    || (bucket == d + "::__files__" && DirectoryOf(s.path) == d)
  }

  lemma BucketIsPlace(nodes: seq<Symbol>, d: string, s: Symbol, bucket: string)
    requires Agreeable(nodes, d) && s in nodes
    ensures Bucket(d, HasOwnSymbols(d, nodes))(s) == [bucket] <==> LiesIn(nodes, d, s, bucket)
  {
    var hasOwn := HasOwnSymbols(d, nodes);
    HasOwnIs(nodes, d);
    assert s in InBucket(d, hasOwn, nodes, bucket) <==> Bucket(d, hasOwn)(s) == [bucket];
    if bucket in Children(Dirs(nodes), d) {
      ChildIsNotSelf(d, bucket);
      ChildBucket(nodes, d, hasOwn, bucket);
    } else if s in InBucket(d, hasOwn, nodes, bucket) {
      NotEmpty(InBucket(d, hasOwn, nodes, bucket), s);
      FilledBucket(nodes, d, hasOwn, bucket);
      OwnBucket(nodes, d);
    } else if bucket == d + SELF_SUFFIX && DirectoryOf(s.path) == d {
      assert s in OwnSet(nodes, d);
      OwnBucket(nodes, d);
    }
  }

  lemma NotEmpty(symbols: set<Symbol>, s: Symbol)
    requires s in symbols
    ensures |symbols| > 0
  {
  }

  // Some edge of this kind goes from a symbol in the one to a symbol in the other.
  ghost predicate EdgeBetween(g: Graph, d: string, shown: ModuleEdge) {
    exists e | e in g.edges :: EdgeFrom(g, d, shown, e)
  }

  predicate EdgeFrom(g: Graph, d: string, shown: ModuleEdge, e: Edge) {
    && e.kind == shown.kind && e.kind in {References, Imports, Tests}
    && EndLiesIn(g.nodes, d, e.fromId, shown.source) && EndLiesIn(g.nodes, d, e.toId, shown.target)
  }

  predicate EndLiesIn(nodes: seq<Symbol>, d: string, id: string, bucket: string) {
    Find(nodes, id).Some? && LiesIn(nodes, d, Find(nodes, id).value, bucket)
  }

  lemma EndIsPlace(nodes: seq<Symbol>, d: string, id: string, bucket: string)
    requires Agreeable(nodes, d)
    ensures BucketOfId(d, HasOwnSymbols(d, nodes), nodes, id) == [bucket] <==> EndLiesIn(nodes, d, id, bucket)
  {
    if Find(nodes, id).Some? {
      BucketIsPlace(nodes, d, Find(nodes, id).value, bucket);
    }
  }

  lemma CrossingExact(g: Graph, d: string, shown: ModuleEdge, e: Edge)
    requires Agreeable(g.nodes, d)
    ensures CrossesAs(g, d, shown, e) <==> shown.source != shown.target && EdgeFrom(g, d, shown, e)
  {
    OneBucketEach(g, d, e, shown);
    EndIsPlace(g.nodes, d, e.fromId, shown.source);
    EndIsPlace(g.nodes, d, e.toId, shown.target);
  }

  ghost predicate CrossesAs(g: Graph, d: string, shown: ModuleEdge, e: Edge) {
    var hasOwn := HasOwnSymbols(d, g.nodes);
    Crosses(d, hasOwn, g.nodes, e) && Crossing(d, hasOwn, g.nodes, e) == shown
  }

  lemma OneBucketEach(g: Graph, d: string, e: Edge, shown: ModuleEdge)
    ensures (var hasOwn := HasOwnSymbols(d, g.nodes);
             CrossesAs(g, d, shown, e)
             <==> e.kind != Defines && e.kind == shown.kind && shown.source != shown.target
                  && BucketOfId(d, hasOwn, g.nodes, e.fromId) == [shown.source]
                  && BucketOfId(d, hasOwn, g.nodes, e.toId) == [shown.target])
  {
    var hasOwn := HasOwnSymbols(d, g.nodes);
    var a, b := BucketOfId(d, hasOwn, g.nodes, e.fromId), BucketOfId(d, hasOwn, g.nodes, e.toId);
    assert |a| <= 1 && |b| <= 1;
    assert a != [] ==> a == [a[0]];
    assert b != [] ==> b == [b[0]];
  }

  // An expansion shows an edge between two modules exactly when some edge that is not a
  // `defines` edge goes from the one to the other.
  lemma EdgesShown(g: Graph, d: string, shown: ModuleEdge)
    requires DistinctIds(g.nodes) && Children(Dirs(g.nodes), d) != {} && Agreeable(g.nodes, d)
    ensures Expanded(g, d).Modules?
    ensures shown in Expanded(g, d).moduleEdges <==> shown.source != shown.target && EdgeBetween(g, d, shown)
  {
    AgreeableExpansion(g, d);
    forall e | e in g.edges
      ensures CrossesAs(g, d, shown, e) <==> shown.source != shown.target && EdgeFrom(g, d, shown, e)
    {
      CrossingExact(g, d, shown, e);
    }
  }

  // A symbol of the graph with this id lies directly in the directory.
  predicate IdIn(nodes: seq<Symbol>, d: string, id: string) {
    exists s | s in nodes :: s.id == id && DirectoryOf(s.path) == d
  }

  // A directory without subdirectories, and a node for own files, shows the symbols that lie
  // directly in it and the edges between two of them.
  lemma LeafShown(g: Graph, d: string, e: Edge, s: Symbol)
    requires DistinctIds(g.nodes)
    ensures !Tagged(d) && Children(Dirs(g.nodes), d) == {} ==> Expanded(g, d) == Expanded(g, d + "::__files__")
    ensures (var leaf := Expanded(g, d + "::__files__");
             && leaf.Symbols?
             && multiset(leaf.symbols)[s] == (if DirectoryOf(s.path) == d then multiset(g.nodes)[s] else 0)
             && multiset(leaf.edges)[e]
                == if IdIn(g.nodes, d, e.fromId) && IdIn(g.nodes, d, e.toId) then multiset(g.edges)[e] else 0)
  {
    TaggedSelf(d);
    HasChildrenIs(g.nodes, d);
    var ids := set s | s in g.nodes && DirectoryOf(s.path) == d :: s.id;
    FilterCount(g.nodes, InDirectory(d), s);
    FilterCount(g.edges, JoinsAmong(ids), e);
    assert e.fromId in ids <==> IdIn(g.nodes, d, e.fromId);
    assert e.toId in ids <==> IdIn(g.nodes, d, e.toId);
  }
}
