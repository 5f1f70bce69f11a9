// Component candidates of one repository (architecture/candidates.py,
// _candidates_for_repository): the chosen prefixes partition its symbols.
module Candidates {
  import opened Lists
  import opened Strings
  import opened CodeGraph
  import opened Paths
  import opened Matching
  import opened ComponentCut
  import opened ComponentSelection

  function RefsFor(repoId: string, prefixes: seq<string>): seq<ComponentRef> {
    seq(|prefixes|, i requires 0 <= i < |prefixes| => ComponentRef(prefixes[i], repoId, prefixes[i]))
  }

  // index.resolve(repo_id, symbol.path) for the candidates of one repository
  function OwnerAmong(repoId: string, prefixes: seq<string>): Symbol -> Option<string> {
    (s: Symbol) => ResolvedOwner(RefsFor(repoId, prefixes), repoId, s.path)
  }

  // ---- Counting ---------------------------------------------------------------------

  function OwnedBy(owner: Symbol -> Option<string>, p: string): Symbol -> bool {
    (s: Symbol) => owner(s) == Some(p)
  }

  function IsOwned(owner: Symbol -> Option<string>): Symbol -> bool {
    (s: Symbol) => owner(s).Some?
  }

  function SumOf(prefixes: seq<string>, counts: map<string, nat>): nat {
    if prefixes == [] then 0
    else
      var last := prefixes[|prefixes| - 1];
      SumOf(prefixes[..|prefixes| - 1], counts) + if last in counts then counts[last] else 0
  }

  lemma {:induction false} SumBump(prefixes: seq<string>, counts: map<string, nat>, p: string)
    requires Distinct(prefixes) && p in counts
    ensures SumOf(prefixes, counts[p := counts[p] + 1]) == SumOf(prefixes, counts) + if p in prefixes then 1 else 0
  {
    if prefixes != [] {
      var init := prefixes[..|prefixes| - 1];
      InitLast(prefixes);
      SumBump(init, counts, p);
    }
  }

  lemma {:induction false} SumZero(prefixes: seq<string>, counts: map<string, nat>)
    requires forall p | p in counts :: counts[p] == 0
    ensures SumOf(prefixes, counts) == 0
  {
    if prefixes != [] {
      SumZero(prefixes[..|prefixes| - 1], counts);
    }
  }

  // symbols_by_prefix: how many symbols each prefix owns.
  ghost predicate CountsOwned(prefixes: seq<string>, counts: map<string, nat>, nodes: seq<Symbol>,
                              owner: Symbol -> Option<string>)
  {
    && (forall p :: p in counts <==> p in prefixes)
    && (forall p | p in counts :: counts[p] == |Filter(nodes, OwnedBy(owner, p))|)
    && SumOf(prefixes, counts) == |Filter(nodes, IsOwned(owner))|
  }

  // owner_of_symbol: the owner of each symbol that has one.
  ghost predicate OwnersKept(owners: map<string, string>, nodes: seq<Symbol>, owner: Symbol -> Option<string>) {
    && (forall s | s in nodes :: if s.id in owners then owner(s) == Some(owners[s.id]) else owner(s) == None)
    && (forall id | id in owners :: exists s :: s in nodes && s.id == id)
  }

  lemma CountsSnoc(prefixes: seq<string>, counts: map<string, nat>, nodes: seq<Symbol>, s: Symbol,
                   owner: Symbol -> Option<string>)
    requires Distinct(prefixes) && CountsOwned(prefixes, counts, nodes, owner)
    requires owner(s).Some? ==> owner(s).value in prefixes
    ensures CountsOwned(prefixes, Bumped(counts, owner(s)), nodes + [s], owner)
  {
    forall p | p in counts ensures Bumped(counts, owner(s))[p] == |Filter(nodes + [s], OwnedBy(owner, p))| {
      CountAt(counts, nodes, s, owner, p);
    }
    FilterSnocSize(nodes, s, IsOwned(owner));
    if owner(s).Some? {
      SumBump(prefixes, counts, owner(s).value);
    }
  }

  lemma CountAt(counts: map<string, nat>, nodes: seq<Symbol>, s: Symbol, owner: Symbol -> Option<string>, p: string)
    requires p in counts && counts[p] == |Filter(nodes, OwnedBy(owner, p))|
        && (owner(s).Some? ==> owner(s).value in counts)
    ensures p in Bumped(counts, owner(s)) && Bumped(counts, owner(s))[p] == |Filter(nodes + [s], OwnedBy(owner, p))|
  {
    FilterSnocSize(nodes, s, OwnedBy(owner, p));
  }

  lemma FilterSnocSize(nodes: seq<Symbol>, s: Symbol, keep: Symbol -> bool)
    ensures |Filter(nodes + [s], keep)| == |Filter(nodes, keep)| + if keep(s) then 1 else 0
  {
    FilterAppend(nodes, [s], keep);
    FilterOne(s, keep);
  }

  lemma OwnersSnoc(owners: map<string, string>, nodes: seq<Symbol>, s: Symbol, owner: Symbol -> Option<string>)
    requires OwnersKept(owners, nodes, owner) && forall t | t in nodes :: t.id != s.id
    ensures OwnersKept(if owner(s).Some? then owners[s.id := owner(s).value] else owners, nodes + [s], owner)
  {
    var next := if owner(s).Some? then owners[s.id := owner(s).value] else owners;
    assert forall t :: t in nodes + [s] <==> t in nodes || t == s;
    assert s.id !in owners;
    forall id | id in next ensures exists t :: t in nodes + [s] && t.id == id {
      if id == s.id {
        assert s in nodes + [s];
      } else {
        var t :| t in nodes && t.id == id;
        assert t in nodes + [s];
      }
    }
  }

  // The symbols of each chosen prefix.
  method CountSymbols(repoId: string, nodes: seq<Symbol>, maxComponents: nat)
    returns (prefixes: seq<string>, symbolsByPrefix: map<string, nat>, owners: map<string, string>)
    requires DistinctIds(nodes)
    ensures IsCutList(prefixes, FinalCut(nodes, maxComponents))
    ensures CountsOwned(prefixes, symbolsByPrefix, nodes, OwnerAmong(repoId, prefixes))
    ensures OwnersKept(owners, nodes, OwnerAmong(repoId, prefixes))
  {
    prefixes := SelectPrefixes(nodes, maxComponents);
    var index := new ComponentIndex(RefsFor(repoId, prefixes));
    symbolsByPrefix, owners := AssignAll(index, repoId, prefixes, nodes);
  }

  // The cut in sorted order, without repetition.
  ghost predicate IsCutList(prefixes: seq<string>, c: Cut) {
    && (forall p :: p in prefixes <==> p in c.cut)
    && forall i, j | 0 <= i < j < |prefixes| :: LexLe(prefixes[i], prefixes[j]) && prefixes[i] != prefixes[j]
  }

  method AssignAll(index: ComponentIndex, repoId: string, prefixes: seq<string>, nodes: seq<Symbol>)
    returns (symbolsByPrefix: map<string, nat>, owners: map<string, string>)
    requires index.Valid() && index.components == RefsFor(repoId, prefixes)
    requires DistinctIds(nodes) && Distinct(prefixes)
    ensures CountsOwned(prefixes, symbolsByPrefix, nodes, OwnerAmong(repoId, prefixes))
    ensures OwnersKept(owners, nodes, OwnerAmong(repoId, prefixes))
  {
    ghost var owner := OwnerAmong(repoId, prefixes);
    symbolsByPrefix := map p | p in prefixes :: 0;
    owners := map[];
    SumZero(prefixes, symbolsByPrefix);
    for i := 0 to |nodes|
      invariant CountsOwned(prefixes, symbolsByPrefix, nodes[..i], owner)
      invariant OwnersKept(owners, nodes[..i], owner)
    {
      var found := index.Resolve(repoId, nodes[i].path);
      AssignNext(repoId, prefixes, symbolsByPrefix, owners, nodes, i);
      if found.None? {
        continue;
      }
      owners := owners[nodes[i].id := found.value];
      symbolsByPrefix := symbolsByPrefix[found.value := symbolsByPrefix[found.value] + 1];
    }
    assert nodes[..|nodes|] == nodes;
  }

  lemma AssignNext(repoId: string, prefixes: seq<string>, counts: map<string, nat>, owners: map<string, string>,
                   nodes: seq<Symbol>, i: nat)
    requires DistinctIds(nodes) && Distinct(prefixes) && i < |nodes|
    requires CountsOwned(prefixes, counts, nodes[..i], OwnerAmong(repoId, prefixes))
    requires OwnersKept(owners, nodes[..i], OwnerAmong(repoId, prefixes))
    ensures (var owner, s := OwnerAmong(repoId, prefixes), nodes[i];
             && (owner(s).Some? ==> owner(s).value in counts)
             && CountsOwned(prefixes, Bumped(counts, owner(s)), nodes[..i + 1], owner)
             && OwnersKept(if owner(s).Some? then owners[s.id := owner(s).value] else owners, nodes[..i + 1], owner))
  {
    var owner, s := OwnerAmong(repoId, prefixes), nodes[i];
    OwnerIsChosen(repoId, prefixes, s.path);
    assert nodes[..i + 1] == nodes[..i] + [s];
    assert forall t | t in nodes[..i] :: t.id != s.id;
    CountsSnoc(prefixes, counts, nodes[..i], s, owner);
    OwnersSnoc(owners, nodes[..i], s, owner);
  }

  // ---- Who owns a path ------------------------------------------------------------------

  // What the index finds, said of the prefixes alone: a longest match, the first listed.
  ghost predicate Chosen(prefixes: seq<string>, path: string, i: nat) {
    && i < |prefixes| && MatchesPrefix(path, prefixes[i])
    && forall j | 0 <= j < |prefixes| && MatchesPrefix(path, prefixes[j]) ::
         |prefixes[j]| < |prefixes[i]| || (|prefixes[j]| == |prefixes[i]| && i <= j)
  }

  lemma OwnerIsChosen(repoId: string, prefixes: seq<string>, path: string)
    ensures match ResolvedOwner(RefsFor(repoId, prefixes), repoId, path)
            case Some(p) => p in prefixes && exists i: nat :: Chosen(prefixes, path, i) && prefixes[i] == p
            case None => forall p | p in prefixes :: !MatchesPrefix(path, p)
  {
    var refs := RefsFor(repoId, prefixes);
    OwnerIsFirstLongest(refs, repoId, path);
    FilterAll(refs, InRepository(repoId));
    match ResolvedOwner(refs, repoId, path) {
      case Some(p) =>
        var c :| FirstLongestIs(refs, path, c) && c.componentId == p;
        var i: nat :| FirstLongest(refs, path, i) && refs[i] == c;
        ChosenFrom(repoId, prefixes, path, i);
      case None =>
        forall p | p in prefixes ensures !MatchesPrefix(path, p) {
          var i :| 0 <= i < |prefixes| && prefixes[i] == p;
          assert refs[i] in refs;
        }
    }
  }

  lemma ChosenFrom(repoId: string, prefixes: seq<string>, path: string, i: nat)
    requires FirstLongest(RefsFor(repoId, prefixes), path, i)
    ensures Chosen(prefixes, path, i) && prefixes[i] in prefixes
  {
    var refs := RefsFor(repoId, prefixes);
    forall j | 0 <= j < |prefixes| && MatchesPrefix(path, prefixes[j])
      ensures |prefixes[j]| < |prefixes[i]| || (|prefixes[j]| == |prefixes[i]| && i <= j)
    {
      assert refs[j].pathPrefix == prefixes[j];
    }
  }

  // ---- The owner by path and the owner by directory -----------------------------------------

  // The component a symbol is found in by its path is the one its directory belongs to.
  ghost predicate OwnedAsInTree(c: Cut, owner: Symbol -> Option<string>, s: Symbol) {
    owner(s).Some? && Owns(c, owner(s).value, DirectoryOf(s.path))
  }

  // Below a directory: the path is not itself a prefix, and the directory does not belong
  // to the files at the top. At the top: the path is not a prefix that goes before theirs.
  ghost predicate Settled(c: Cut, path: string) {
    if '/' in path then
      path !in c.cut && !Owns(c, ROOT_LABEL, DirectoryOf(path))
    else
      path == ROOT_LABEL || path !in c.cut || GoesAfterRoot(path)
  }

  predicate GoesAfterRoot(path: string) {
    |path| < |ROOT_LABEL| || (|path| == |ROOT_LABEL| && LexLe(ROOT_LABEL, path))
  }

  lemma MatchesBelow(path: string, q: string)
    requires '/' in path
    ensures MatchesPrefix(path, q) <==> q == "" || (q != ROOT_LABEL && (q == path || Under(DirectoryOf(path), q)))
  {
    if q != "" && q != ROOT_LABEL {
      MatchesIsUnder(path, q);
      ParentAbove(path);
      if Under(path, q) && q != path {
        BelowParent(path, q);
      }
      if Under(DirectoryOf(path), q) {
        UnderTransitive(path, DirectoryOf(path), q);
      }
    }
  }

  lemma MatchesAtTop(path: string, q: string)
    requires '/' !in path
    ensures MatchesPrefix(path, q) <==> q == "" || q == ROOT_LABEL || q == path
    ensures Under(ROOT_LABEL, q) <==> q == ROOT_LABEL
  {
    if q + "/" <= path {
      StartsBelow(path, q);
    }
    if Under(ROOT_LABEL, q) && q != ROOT_LABEL {
      BelowParent(ROOT_LABEL, q);
    }
  }

  lemma BelowAgrees(c: Cut, prefixes: seq<string>, path: string, o: string, i: nat)
    requires '/' in path && IsCutList(prefixes, c) && Owns(c, o, DirectoryOf(path)) && Chosen(prefixes, path, i)
    ensures Owns(c, prefixes[i], DirectoryOf(path)) <==> Settled(c, path)
  {
    if Settled(c, path) {
      BelowSettled(c, prefixes, path, o, i);
    } else if path in c.cut {
      BelowPrefix(c, prefixes, path, i);
    } else {
      BelowRoot(c, prefixes, path, i);
    }
  }

  lemma ChosenLonger(prefixes: seq<string>, path: string, i: nat, p: string)
    requires Chosen(prefixes, path, i) && p in prefixes && MatchesPrefix(path, p)
    ensures |prefixes[i]| >= |p|
  {
    var j :| 0 <= j < |prefixes| && prefixes[j] == p;
  }

  lemma BelowSettled(c: Cut, prefixes: seq<string>, path: string, o: string, i: nat)
    requires '/' in path && IsCutList(prefixes, c) && Owns(c, o, DirectoryOf(path)) && Chosen(prefixes, path, i)
    requires path !in c.cut && !Owns(c, ROOT_LABEL, DirectoryOf(path))
    ensures Owns(c, prefixes[i], DirectoryOf(path))
  {
    MatchesBelow(path, prefixes[i]);
    MatchesBelow(path, o);
    ChosenLonger(prefixes, path, i, o);
    SameOwner(c, o, prefixes[i], DirectoryOf(path));
  }

  // The path is itself a prefix, which is longer than its directory.
  lemma BelowPrefix(c: Cut, prefixes: seq<string>, path: string, i: nat)
    requires '/' in path && IsCutList(prefixes, c) && Chosen(prefixes, path, i) && path in c.cut
    ensures !Owns(c, prefixes[i], DirectoryOf(path))
  {
    ParentAbove(path);
    MatchesBelow(path, path);
    ChosenLonger(prefixes, path, i, path);
  }

  // The directory belongs to the files at the top, whose prefix the path does not match.
  lemma BelowRoot(c: Cut, prefixes: seq<string>, path: string, i: nat)
    requires '/' in path && Chosen(prefixes, path, i) && Owns(c, ROOT_LABEL, DirectoryOf(path))
    ensures !Owns(c, prefixes[i], DirectoryOf(path))
  {
    MatchesBelow(path, prefixes[i]);
    if Owns(c, prefixes[i], DirectoryOf(path)) {
      OwnsUnique(c, prefixes[i], ROOT_LABEL, DirectoryOf(path));
      assert false;
    }
  }

  // A prefix above d at least as long as its owner is its owner.
  lemma SameOwner(c: Cut, o: string, r: string, d: string)
    requires Owns(c, o, d) && r in c.cut && |r| >= |o| && (r == "" || Under(d, r))
    ensures Owns(c, r, d)
  {
    if r == "" {
      assert o == "";
    } else {
      assert r == d[..|r|] && o == d[..|o|];
    }
  }

  lemma TopAgrees(c: Cut, prefixes: seq<string>, path: string, o: string, i: nat)
    requires '/' !in path && IsCutList(prefixes, c) && Owns(c, o, DirectoryOf(path)) && Chosen(prefixes, path, i)
    ensures Owns(c, prefixes[i], DirectoryOf(path)) <==> Settled(c, path)
  {
    var r := prefixes[i];
    MatchesAtTop(path, o);
    MatchesAtTop(path, r);
    assert ROOT_LABEL in c.cut && ROOT_LABEL in prefixes;
    var k :| 0 <= k < |prefixes| && prefixes[k] == ROOT_LABEL;
    MatchesAtTop(path, ROOT_LABEL);
    assert Owns(c, r, ROOT_LABEL) <==> r == ROOT_LABEL;
    if path != ROOT_LABEL && path in c.cut {
      assert path in prefixes;
      var m :| 0 <= m < |prefixes| && prefixes[m] == path;
      MatchesAtTop(path, path);
      TieAtTop(prefixes, path, i, k, m);
    }
  }

  lemma TieAtTop(prefixes: seq<string>, path: string, i: nat, k: nat, m: nat)
    requires forall x, y | 0 <= x < y < |prefixes| :: LexLe(prefixes[x], prefixes[y]) && prefixes[x] != prefixes[y]
    requires Chosen(prefixes, path, i) && k < |prefixes| && m < |prefixes| && prefixes[k] == ROOT_LABEL
        && prefixes[m] == path
    requires path != ROOT_LABEL && (prefixes[i] == ROOT_LABEL || prefixes[i] == path)
    requires MatchesPrefix(path, ROOT_LABEL) && MatchesPrefix(path, path)
    ensures prefixes[i] == ROOT_LABEL <==> GoesAfterRoot(path)
  {
    assert (prefixes[i] == ROOT_LABEL ==> i == k) && (prefixes[i] == path ==> i == m);
    if LexLe(ROOT_LABEL, path) && LexLe(path, ROOT_LABEL) {
      LexAntisymmetric(ROOT_LABEL, path);
    }
  }

  // For every symbol, its path and its directory lead to the same component if and only if
  // it is settled.
  lemma OwnerAgreesExactly(nodes: seq<Symbol>, c: Cut, repoId: string, prefixes: seq<string>, s: Symbol)
    requires CutOk(Dirs(nodes), nodes, c) && IsCutList(prefixes, c) && s in nodes
    ensures OwnedAsInTree(c, OwnerAmong(repoId, prefixes), s) <==> Settled(c, s.path)
  {
    var o := OwnerOf(nodes, c, s);
    OwnerIsChosen(repoId, prefixes, s.path);
    if OwnerAmong(repoId, prefixes)(s).Some? {
      var i: nat :| Chosen(prefixes, s.path, i) && prefixes[i] == OwnerAmong(repoId, prefixes)(s).value;
      if '/' in s.path {
        BelowAgrees(c, prefixes, s.path, o, i);
      } else {
        TopAgrees(c, prefixes, s.path, o, i);
      }
    } else {
      UnownedIsUnsettled(c, prefixes, s.path, o);
    }
  }

  lemma UnownedIsUnsettled(c: Cut, prefixes: seq<string>, path: string, o: string)
    requires IsCutList(prefixes, c) && Owns(c, o, DirectoryOf(path))
    requires forall p | p in prefixes :: !MatchesPrefix(path, p)
    ensures !Settled(c, path)
  {
    assert o in prefixes;
    if '/' in path {
      MatchesBelow(path, o);
    } else {
      MatchesAtTop(path, o);
    }
  }

  // ---- The shares -----------------------------------------------------------------------------

  // What each chosen prefix is promised to own.
  function Share(nodes: seq<Symbol>, c: Cut, p: string): set<Symbol> {
    if p in c.split then OwnSet(nodes, p) else SubtreeSet(nodes, p)
  }

  ghost function Owned(nodes: seq<Symbol>, f: Symbol -> bool): set<Symbol> {
    set s | s in nodes && f(s)
  }

  lemma {:induction false} FilterSize(nodes: seq<Symbol>, f: Symbol -> bool)
    requires DistinctIds(nodes)
    ensures |Filter(nodes, f)| == |Owned(nodes, f)|
  {
    if nodes == [] {
      assert Owned(nodes, f) == {};
    } else {
      var init, last := nodes[..|nodes| - 1], nodes[|nodes| - 1];
      InitLast(nodes);
      FilterSize(init, f);
      OwnedSnoc(init, last, f);
    }
  }

  lemma OwnedSnoc(init: seq<Symbol>, last: Symbol, f: Symbol -> bool)
    requires last !in init
    ensures |Owned(init + [last], f)| == |Owned(init, f)| + if f(last) then 1 else 0
  {
    assert Owned(init + [last], f) == Owned(init, f) + if f(last) then {last} else {};
  }

  lemma ShareIsOwned(nodes: seq<Symbol>, c: Cut, owner: Symbol -> Option<string>, p: string)
    requires CutOk(Dirs(nodes), nodes, c) && p in c.cut
    requires forall s | s in nodes :: OwnedAsInTree(c, owner, s)
    ensures Owned(nodes, OwnedBy(owner, p)) == Share(nodes, c, p)
  {
    forall s | s in nodes ensures OwnedBy(owner, p)(s) <==> s in Share(nodes, c, p) {
      assert OwnedAsInTree(c, owner, s);
      InShare(nodes, c, owner(s).value, p, s);
    }
  }

  lemma InShare(nodes: seq<Symbol>, c: Cut, o: string, p: string, s: Symbol)
    requires CutOk(Dirs(nodes), nodes, c) && p in c.cut && s in nodes && Owns(c, o, DirectoryOf(s.path))
    ensures o == p <==> s in Share(nodes, c, p)
  {
    OwnershipExact(nodes, c, p, s);
    if Owns(c, p, DirectoryOf(s.path)) {
      OwnsUnique(c, p, o, DirectoryOf(s.path));
    }
  }

  // If and only if every symbol is settled, every symbol is counted where its directory
  // belongs; then each prefix counts exactly its share, and all symbols are counted.
  lemma CountsAgreeExactly(nodes: seq<Symbol>, maxComponents: nat, repoId: string, prefixes: seq<string>,
                           counts: map<string, nat>)
    requires DistinctIds(nodes) && IsCutList(prefixes, FinalCut(nodes, maxComponents))
    requires CountsOwned(prefixes, counts, nodes, OwnerAmong(repoId, prefixes))
    ensures (var c, owner := FinalCut(nodes, maxComponents), OwnerAmong(repoId, prefixes);
             && ((forall s | s in nodes :: OwnedAsInTree(c, owner, s)) <==> forall s | s in nodes :: Settled(c, s.path))
             && ((forall s | s in nodes :: Settled(c, s.path)) ==>
                   (forall p | p in counts :: counts[p] == |Share(nodes, c, p)|) && SumOf(prefixes, counts) == |nodes|))
  {
    var c, owner := FinalCut(nodes, maxComponents), OwnerAmong(repoId, prefixes);
    FinalCutOk(nodes, maxComponents);
    forall s | s in nodes ensures OwnedAsInTree(c, owner, s) <==> Settled(c, s.path) {
      OwnerAgreesExactly(nodes, c, repoId, prefixes, s);
    }
    if forall s | s in nodes :: OwnedAsInTree(c, owner, s) {
      SharesCounted(nodes, c, owner, prefixes, counts);
    }
  }

  lemma SharesCounted(nodes: seq<Symbol>, c: Cut, owner: Symbol -> Option<string>, prefixes: seq<string>,
                      counts: map<string, nat>)
    requires DistinctIds(nodes) && CutOk(Dirs(nodes), nodes, c) && IsCutList(prefixes, c)
    requires CountsOwned(prefixes, counts, nodes, owner) && forall s | s in nodes :: OwnedAsInTree(c, owner, s)
    ensures (forall p | p in counts :: counts[p] == |Share(nodes, c, p)|) && SumOf(prefixes, counts) == |nodes|
  {
    forall p | p in counts ensures counts[p] == |Share(nodes, c, p)| {
      ShareIsOwned(nodes, c, owner, p);
      FilterSize(nodes, OwnedBy(owner, p));
    }
    FilterAll(nodes, IsOwned(owner));
  }

  // Paths as a repository listing has them - no file where a directory is, no directory
  // called "(root)" - are settled.
  lemma TidyIsSettled(nodes: seq<Symbol>, c: Cut, s: Symbol)
    requires CutOk(Dirs(nodes), nodes, c) && s in nodes && s.path !in Dirs(nodes)
    requires '/' in s.path ==> !Under(DirectoryOf(s.path), ROOT_LABEL)
    ensures Settled(c, s.path)
  {
  }

  // ---- Edges ---------------------------------------------------------------------------------

  function Inside(owners: map<string, string>, p: string): Edge -> bool {
    (e: Edge) => e.fromId in owners && e.toId in owners && owners[e.fromId] == p && owners[e.toId] == p
  }

  function Leaving(owners: map<string, string>, p: string): Edge -> bool {
    (e: Edge) => e.fromId in owners && e.toId in owners && owners[e.fromId] == p && owners[e.toId] != p
  }

  function Entering(owners: map<string, string>, p: string): Edge -> bool {
    (e: Edge) => e.fromId in owners && e.toId in owners && owners[e.fromId] != p && owners[e.toId] == p
  }

  function BothOwned(owners: map<string, string>): Edge -> bool {
    (e: Edge) => e.fromId in owners && e.toId in owners
  }

  // counts[p] is the number of edges of a kind that depends on p.
  ghost predicate Tallies(prefixes: seq<string>, counts: map<string, nat>, edges: seq<Edge>,
                          kind: string -> (Edge -> bool))
  {
    forall p | p in prefixes :: p in counts && counts[p] == |Filter(edges, kind(p))|
  }

  lemma TallyNext(prefixes: seq<string>, counts: map<string, nat>, edges: seq<Edge>, kind: string -> (Edge -> bool),
                  i: nat, hit: Option<string>)
    requires i < |edges| && Tallies(prefixes, counts, edges[..i], kind) && (hit.Some? ==> hit.value in counts)
    requires forall p | p in prefixes :: kind(p)(edges[i]) <==> hit == Some(p)
    ensures Tallies(prefixes, Bumped(counts, hit), edges[..i + 1], kind)
  {
    forall p | p in prefixes ensures p in counts && Bumped(counts, hit)[p] == |Filter(edges[..i + 1], kind(p))| {
      FilterTake(edges, kind(p), i);
    }
  }

  function Bumped(counts: map<string, nat>, hit: Option<string>): map<string, nat>
    requires hit.Some? ==> hit.value in counts
  {
    if hit.Some? then counts[hit.value := counts[hit.value] + 1] else counts
  }

  // The edge joins a symbol that a owns to one that b owns.
  predicate Connects(owners: map<string, string>, e: Edge, a: string, b: string) {
    e.fromId in owners && e.toId in owners && owners[e.fromId] == a && owners[e.toId] == b
  }

  // The edges within a prefix, and those from it to others and to it from others, by their
  // positions.
  ghost function Within(owners: map<string, string>, edges: seq<Edge>, p: string): set<nat> {
    set i: nat | i < |edges| && Connects(owners, edges[i], p, p)
  }

  ghost function Outgoing(owners: map<string, string>, edges: seq<Edge>, p: string): set<nat> {
    set i: nat | i < |edges| && exists q: string :: q != p && Connects(owners, edges[i], p, q)
  }

  ghost function Incoming(owners: map<string, string>, edges: seq<Edge>, p: string): set<nat> {
    set i: nat | i < |edges| && exists q: string :: q != p && Connects(owners, edges[i], q, p)
  }

  ghost predicate EdgeTotals(prefixes: seq<string>, owners: map<string, string>, edges: seq<Edge>,
                             internal: map<string, nat>, inbound: map<string, nat>, outbound: map<string, nat>)
  {
    forall p | p in prefixes ::
      && p in internal && internal[p] == |Within(owners, edges, p)|
      && p in outbound && outbound[p] == |Outgoing(owners, edges, p)|
      && p in inbound && inbound[p] == |Incoming(owners, edges, p)|
  }

  lemma {:induction false} FilterPositions<T>(xs: seq<T>, keep: T -> bool, positions: set<nat>)
    requires forall i: nat :: i in positions <==> i < |xs| && keep(xs[i])
    ensures |Filter(xs, keep)| == |positions|
  {
    if xs == [] {
      assert positions == {};
    } else {
      var n := |xs| - 1;
      FilterPositions(xs[..n], keep, positions - {n});
    }
  }

  lemma TotalsOfCounts(prefixes: seq<string>, owners: map<string, string>, edges: seq<Edge>,
                       internal: map<string, nat>, inbound: map<string, nat>, outbound: map<string, nat>)
    requires EdgeCounts(prefixes, owners, edges, internal, inbound, outbound)
    ensures EdgeTotals(prefixes, owners, edges, internal, inbound, outbound)
  {
    forall p | p in prefixes
      ensures p in internal && internal[p] == |Within(owners, edges, p)|
      ensures p in outbound && outbound[p] == |Outgoing(owners, edges, p)|
      ensures p in inbound && inbound[p] == |Incoming(owners, edges, p)|
    {
      PrefixTotals(owners, edges, p);
    }
  }

  lemma PrefixTotals(owners: map<string, string>, edges: seq<Edge>, p: string)
    ensures |Filter(edges, Inside(owners, p))| == |Within(owners, edges, p)|
    ensures |Filter(edges, Leaving(owners, p))| == |Outgoing(owners, edges, p)|
    ensures |Filter(edges, Entering(owners, p))| == |Incoming(owners, edges, p)|
  {
    FilterPositions(edges, Inside(owners, p), Within(owners, edges, p));
    forall i: nat
      ensures i in Outgoing(owners, edges, p) <==> i < |edges| && Leaving(owners, p)(edges[i])
      ensures i in Incoming(owners, edges, p) <==> i < |edges| && Entering(owners, p)(edges[i])
    {
      if i < |edges| {
        EdgeConnects(owners, edges[i], p);
      }
    }
    FilterPositions(edges, Leaving(owners, p), Outgoing(owners, edges, p));
    FilterPositions(edges, Entering(owners, p), Incoming(owners, edges, p));
  }

  lemma EdgeConnects(owners: map<string, string>, e: Edge, p: string)
    ensures Leaving(owners, p)(e) <==> exists q: string :: q != p && Connects(owners, e, p, q)
    ensures Entering(owners, p)(e) <==> exists q: string :: q != p && Connects(owners, e, q, p)
  {
    if Leaving(owners, p)(e) {
      assert Connects(owners, e, p, owners[e.toId]);
    }
    if Entering(owners, p)(e) {
      assert Connects(owners, e, owners[e.fromId], p);
    }
  }

  // internalEdges, inboundEdges and outboundEdges of each prefix
  method CountEdges(prefixes: seq<string>, owners: map<string, string>, edges: seq<Edge>)
    returns (internal: map<string, nat>, inbound: map<string, nat>, outbound: map<string, nat>)
    requires forall id | id in owners :: owners[id] in prefixes
    ensures EdgeCounts(prefixes, owners, edges, internal, inbound, outbound)
    ensures EdgeTotals(prefixes, owners, edges, internal, inbound, outbound)
  {
    internal := map p | p in prefixes :: 0;
    inbound, outbound := internal, internal;
    for i := 0 to |edges|
      invariant EdgeCounts(prefixes, owners, edges[..i], internal, inbound, outbound)
    {
      var e := edges[i];
      EdgeCountsNext(prefixes, owners, edges, i, internal, inbound, outbound);
      if e.fromId !in owners || e.toId !in owners {
        continue;
      }
      var source, target := owners[e.fromId], owners[e.toId];
      if source == target {
        internal := internal[source := internal[source] + 1];
        continue;
      }
      outbound := outbound[source := outbound[source] + 1];
      inbound := inbound[target := inbound[target] + 1];
    }
    assert edges[..|edges|] == edges;
    TotalsOfCounts(prefixes, owners, edges, internal, inbound, outbound);
  }

  function InsideOf(owners: map<string, string>): string -> (Edge -> bool) {
    (p: string) => Inside(owners, p)
  }

  function LeavingOf(owners: map<string, string>): string -> (Edge -> bool) {
    (p: string) => Leaving(owners, p)
  }

  function EnteringOf(owners: map<string, string>): string -> (Edge -> bool) {
    (p: string) => Entering(owners, p)
  }

  ghost predicate EdgeCounts(prefixes: seq<string>, owners: map<string, string>, edges: seq<Edge>,
                             internal: map<string, nat>, inbound: map<string, nat>, outbound: map<string, nat>)
  {
    && Tallies(prefixes, internal, edges, InsideOf(owners))
    && Tallies(prefixes, outbound, edges, LeavingOf(owners))
    && Tallies(prefixes, inbound, edges, EnteringOf(owners))
  }

  lemma EdgeCountsNext(prefixes: seq<string>, owners: map<string, string>, edges: seq<Edge>, i: nat,
                       internal: map<string, nat>, inbound: map<string, nat>, outbound: map<string, nat>)
    requires i < |edges| && EdgeCounts(prefixes, owners, edges[..i], internal, inbound, outbound)
    requires forall id | id in owners :: owners[id] in prefixes
    ensures (var e := edges[i];
             if e.fromId !in owners || e.toId !in owners then
               EdgeCounts(prefixes, owners, edges[..i + 1], internal, inbound, outbound)
             else
               var a, b := owners[e.fromId], owners[e.toId];
               && a in internal && a in outbound && b in inbound
               && if a == b then
                    EdgeCounts(prefixes, owners, edges[..i + 1], internal[a := internal[a] + 1], inbound, outbound)
                  else
                    EdgeCounts(prefixes, owners, edges[..i + 1], internal, inbound[b := inbound[b] + 1],
                               outbound[a := outbound[a] + 1]))
  {
    var e := edges[i];
    var source: Option<string> := if e.fromId in owners then Some(owners[e.fromId]) else None;
    var target: Option<string> := if e.toId in owners then Some(owners[e.toId]) else None;
    var both, same := source.Some? && target.Some?, source == target;
    TallyNext(prefixes, internal, edges, InsideOf(owners), i, if both && same then source else None);
    TallyNext(prefixes, outbound, edges, LeavingOf(owners), i, if both && !same then source else None);
    TallyNext(prefixes, inbound, edges, EnteringOf(owners), i, if both && !same then target else None);
  }

  // The sum of a kind of edges over all prefixes.
  function SumKind(prefixes: seq<string>, edges: seq<Edge>, kind: string -> (Edge -> bool)): nat {
    if prefixes == [] then 0
    else SumKind(prefixes[..|prefixes| - 1], edges, kind) + |Filter(edges, kind(prefixes[|prefixes| - 1]))|
  }

  lemma {:induction false} SumKindNone(prefixes: seq<string>, kind: string -> (Edge -> bool))
    ensures SumKind(prefixes, [], kind) == 0
  {
    if prefixes != [] { SumKindNone(prefixes[..|prefixes| - 1], kind); }
  }

  lemma {:induction false} SumKindSnoc(prefixes: seq<string>, edges: seq<Edge>, kind: string -> (Edge -> bool), e: Edge,
                                       hit: Option<string>)
    requires Distinct(prefixes) && forall p | p in prefixes :: kind(p)(e) <==> hit == Some(p)
    ensures SumKind(prefixes, edges + [e], kind)
         == SumKind(prefixes, edges, kind) + if hit.Some? && hit.value in prefixes then 1 else 0
  {
    if prefixes != [] {
      var init, last := prefixes[..|prefixes| - 1], prefixes[|prefixes| - 1];
      InitLast(prefixes);
      SumKindSnoc(init, edges, kind, e, hit);
      FilterAppend(edges, [e], kind(last));
      FilterOne(e, kind(last));
    }
  }

  // Every edge between two owned symbols is internal to one prefix, or leaves one
  // and enters one other.
  lemma {:induction false} EdgesConserved(prefixes: seq<string>, owners: map<string, string>, edges: seq<Edge>)
    requires Distinct(prefixes) && forall id | id in owners :: owners[id] in prefixes
    ensures SumKind(prefixes, edges, InsideOf(owners)) + SumKind(prefixes, edges, LeavingOf(owners))
         == |Filter(edges, BothOwned(owners))|
    ensures SumKind(prefixes, edges, LeavingOf(owners)) == SumKind(prefixes, edges, EnteringOf(owners))
    decreases |edges|
  {
    if edges == [] {
      SumKindNone(prefixes, InsideOf(owners));
      SumKindNone(prefixes, LeavingOf(owners));
      SumKindNone(prefixes, EnteringOf(owners));
    } else {
      var init, e := edges[..|edges| - 1], edges[|edges| - 1];
      EdgesConserved(prefixes, owners, init);
      InitLast(edges);
      OneEdgeConserved(prefixes, owners, init, e);
    }
  }

  lemma OneEdgeConserved(prefixes: seq<string>, owners: map<string, string>, edges: seq<Edge>, e: Edge)
    requires Distinct(prefixes) && forall id | id in owners :: owners[id] in prefixes
    ensures (var inside, leaving, entering := InsideOf(owners), LeavingOf(owners), EnteringOf(owners);
             var owned := BothOwned(owners)(e);
             var same := owned && owners[e.fromId] == owners[e.toId];
             && SumKind(prefixes, edges + [e], inside) == SumKind(prefixes, edges, inside) + (if same then 1 else 0)
             && SumKind(prefixes, edges + [e], leaving)
                 == SumKind(prefixes, edges, leaving) + (if owned && !same then 1 else 0)
             && SumKind(prefixes, edges + [e], entering)
                 == SumKind(prefixes, edges, entering) + (if owned && !same then 1 else 0))
  {
    var owned := BothOwned(owners)(e);
    var same := owned && owners[e.fromId] == owners[e.toId];
    SumKindSnoc(prefixes, edges, InsideOf(owners), e, if same then Some(owners[e.fromId]) else None);
    SumKindSnoc(prefixes, edges, LeavingOf(owners), e, if owned && !same then Some(owners[e.fromId]) else None);
    SumKindSnoc(prefixes, edges, EnteringOf(owners), e, if owned && !same then Some(owners[e.toId]) else None);
  }
}
