// Which component owns a path (architecture/matching.py).
module Matching {
  import opened Lists
  import opened Paths
  import opened Sorting

  datatype ComponentRef = ComponentRef(componentId: string, repoId: string, pathPrefix: string)

  predicate MatchesPrefix(path: string, prefix: string) {
    if prefix == "" then true
    else if prefix == ROOT_LABEL then '/' !in path
    else path == prefix || prefix + "/" <= path
  }

  // Apart from the two special prefixes, matching is lying under a directory.
  lemma MatchesIsUnder(path: string, prefix: string)
    requires prefix != "" && prefix != ROOT_LABEL
    ensures MatchesPrefix(path, prefix) <==> Under(path, prefix)
  {
    if Under(path, prefix) && path != prefix {
      assert prefix + "/" == path[..|prefix| + 1];
    }
  }

  // ---- ComponentIndex ---------------------------------------------------------

  predicate NotShorter(a: ComponentRef, b: ComponentRef) {
    |a.pathPrefix| >= |b.pathPrefix|
  }

  // candidates.sort(key=len(pathPrefix), reverse=True), which keeps the order of ties
  function LongestFirst(refs: seq<ComponentRef>): seq<ComponentRef> {
    SortBy(refs, NotShorter)
  }

  lemma LengthOrder()
    ensures TotalOrder(NotShorter)
  {
    forall a: ComponentRef, b: ComponentRef ensures Comparable(NotShorter, a, b) {
    }
    forall a: ComponentRef, b: ComponentRef, c: ComponentRef ensures Passes(NotShorter, a, b, c) {
    }
  }

  // ---- Owners ---------------------------------------------------------------------

  // The empty prefix covers everything, the root what has no directory, and any other one
  // itself and what lies below it.
  ghost predicate Covers(prefix: string, path: string) {
    || prefix == ""
    || (prefix == "(root)" && '/' !in path)
    || (prefix != "(root)" && (path == prefix || exists rest: string :: path == prefix + "/" + rest))
  }

  lemma MatchesIsCovers(path: string, prefix: string)
    ensures MatchesPrefix(path, prefix) <==> Covers(prefix, path)
  {
    if prefix + "/" <= path {
      assert path == prefix + "/" + path[|prefix| + 1..];
    }
  }

  ghost predicate Candidate(c: ComponentRef, repoId: string, path: string) {
    c.repoId == repoId && Covers(c.pathPrefix, path)
  }

  // A component with a longest matching prefix, none where no prefix matches.
  ghost predicate Resolves(components: seq<ComponentRef>, repoId: string, path: string, owner: Option<string>) {
    match owner
    case Some(id) =>
      exists c | c in components && c.componentId == id && Candidate(c, repoId, path) ::
        forall d | d in components && Candidate(d, repoId, path) :: |d.pathPrefix| <= |c.pathPrefix|
    case None => forall c | c in components :: !Candidate(c, repoId, path)
  }

  function InRepository(repoId: string): ComponentRef -> bool {
    (c: ComponentRef) => c.repoId == repoId
  }

  function RefsOf(components: seq<ComponentRef>, repoId: string): seq<ComponentRef> {
    LongestFirst(Filter(components, InRepository(repoId)))
  }

  // The first reference whose prefix matches.
  function FirstRef(refs: seq<ComponentRef>, path: string): Option<ComponentRef> {
    if refs == [] then None
    else if MatchesPrefix(path, refs[0].pathPrefix) then Some(refs[0])
    else FirstRef(refs[1..], path)
  }

  function IdOf(found: Option<ComponentRef>): Option<string> {
    match found
    case Some(c) => Some(c.componentId)
    case None => None
  }

  // The component the index finds for a path.
  function ResolvedOwner(components: seq<ComponentRef>, repoId: string, path: string): Option<string> {
    IdOf(FirstRef(RefsOf(components, repoId), path))
  }

  // ---- The longest match, and the first of equally long ones -------------------------

  // refs[i] matches, everything that matches before it is shorter, and nothing is longer.
  predicate FirstLongest(refs: seq<ComponentRef>, path: string, i: nat) {
    && i < |refs| && MatchesPrefix(path, refs[i].pathPrefix)
    && (forall j | 0 <= j < i && MatchesPrefix(path, refs[j].pathPrefix) :: |refs[j].pathPrefix| < |refs[i].pathPrefix|)
    && (forall j | i < j < |refs| && MatchesPrefix(path, refs[j].pathPrefix) ::
          |refs[j].pathPrefix| <= |refs[i].pathPrefix|)
  }

  ghost predicate FirstLongestIs(refs: seq<ComponentRef>, path: string, c: ComponentRef) {
    exists i: nat :: FirstLongest(refs, path, i) && refs[i] == c
  }

  // One pass that keeps the longest match so far.
  function Best(refs: seq<ComponentRef>, path: string): Option<ComponentRef> {
    if refs == [] then None else Better(Best(refs[..|refs| - 1], path), refs[|refs| - 1], path)
  }

  function Better(best: Option<ComponentRef>, c: ComponentRef, path: string): Option<ComponentRef> {
    if MatchesPrefix(path, c.pathPrefix) && (best.None? || |best.value.pathPrefix| < |c.pathPrefix|) then Some(c)
    else best
  }

  lemma {:induction false} FirstRefSnoc(refs: seq<ComponentRef>, c: ComponentRef, path: string)
    ensures FirstRef(refs + [c], path)
         == if FirstRef(refs, path).Some? then FirstRef(refs, path)
            else if MatchesPrefix(path, c.pathPrefix) then Some(c) else None
    ensures FirstRef(refs, path).Some? ==>
        FirstRef(refs, path).value in refs && MatchesPrefix(path, FirstRef(refs, path).value.pathPrefix)
  {
    if refs == [] {
      assert refs + [c] == [c] && [c][1..] == [];
    } else {
      assert (refs + [c])[1..] == refs[1..] + [c];
      FirstRefSnoc(refs[1..], c, path);
    }
  }

  // Inserting by length keeps the better one first.
  lemma {:induction false} InsertBetter(refs: seq<ComponentRef>, c: ComponentRef, path: string)
    requires SortedBy(refs, NotShorter)
    ensures FirstRef(Insert(refs, c, NotShorter), path) == Better(FirstRef(refs, path), c, path)
  {
    FirstRefSnoc(refs, c, path);
    if refs != [] {
      var init, last := refs[..|refs| - 1], refs[|refs| - 1];
      InitLast(refs);
      FirstRefSnoc(init, last, path);
      if |last.pathPrefix| >= |c.pathPrefix| {
        if FirstRef(refs, path).Some? {
          LengthOrder();
          LastIsLargest(refs, FirstRef(refs, path).value, NotShorter);
        }
      } else {
        InsertBetter(init, c, path);
        FirstRefSnoc(Insert(init, c, NotShorter), last, path);
      }
    }
  }

  lemma {:induction false} SortedFirstIsBest(refs: seq<ComponentRef>, path: string)
    ensures FirstRef(LongestFirst(refs), path) == Best(refs, path)
  {
    if refs != [] {
      var init, last := refs[..|refs| - 1], refs[|refs| - 1];
      SortedFirstIsBest(init, path);
      LengthOrder();
      SortSorts(init, NotShorter);
      InsertBetter(LongestFirst(init), last, path);
    }
  }

  lemma {:induction false} BestIsFirstLongest(refs: seq<ComponentRef>, path: string)
    ensures Best(refs, path).None? ==> NothingMatches(refs, path)
    ensures Best(refs, path).Some? ==> FirstLongestIs(refs, path, Best(refs, path).value)
  {
    if refs != [] {
      var init, last := refs[..|refs| - 1], refs[|refs| - 1];
      InitLast(refs);
      BestIsFirstLongest(init, path);
      if Best(init, path).None? {
        BestIsNew(init, last, path);
      } else {
        BestIsKept(init, Best(init, path).value, last, path);
      }
    }
  }

  ghost predicate NothingMatches(refs: seq<ComponentRef>, path: string) {
    forall c | c in refs :: !MatchesPrefix(path, c.pathPrefix)
  }

  lemma BestIsNew(init: seq<ComponentRef>, last: ComponentRef, path: string)
    requires NothingMatches(init, path)
    ensures if MatchesPrefix(path, last.pathPrefix) then FirstLongestIs(init + [last], path, last)
            else NothingMatches(init + [last], path)
  {
    if MatchesPrefix(path, last.pathPrefix) {
      assert forall j | 0 <= j < |init| :: init[j] in init;
      assert FirstLongest(init + [last], path, |init|);
    }
  }

  lemma BestIsKept(init: seq<ComponentRef>, best: ComponentRef, last: ComponentRef, path: string)
    requires FirstLongestIs(init, path, best)
    ensures Better(Some(best), last, path).Some?
    ensures FirstLongestIs(init + [last], path, Better(Some(best), last, path).value)
  {
    var k: nat :| FirstLongest(init, path, k) && init[k] == best;
    var all := init + [last];
    if MatchesPrefix(path, last.pathPrefix) && |best.pathPrefix| < |last.pathPrefix| {
      assert FirstLongest(all, path, |init|);
    } else {
      assert all[k] == best && FirstLongest(all, path, k);
    }
  }

  // The index finds a longest match, the first one listed where several are equally
  // long, and nothing only where no prefix matches.
  lemma OwnerIsFirstLongest(components: seq<ComponentRef>, repoId: string, path: string)
    ensures (var refs := Filter(components, InRepository(repoId));
             match ResolvedOwner(components, repoId, path)
             case Some(id) => exists c :: FirstLongestIs(refs, path, c) && c.componentId == id
             case None => NothingMatches(refs, path))
  {
    var refs := Filter(components, InRepository(repoId));
    SortedFirstIsBest(refs, path);
    BestIsFirstLongest(refs, path);
  }

  // In other words, a component with a longest matching prefix.
  lemma OwnerIsLongest(components: seq<ComponentRef>, repoId: string, path: string)
    ensures Resolves(components, repoId, path, ResolvedOwner(components, repoId, path))
  {
    var refs := Filter(components, InRepository(repoId));
    OwnerIsFirstLongest(components, repoId, path);
    forall c ensures c in refs <==> c in components && c.repoId == repoId {
      FilterMember(components, InRepository(repoId), c);
    }
    forall c | c in refs ensures MatchesPrefix(path, c.pathPrefix) <==> Candidate(c, repoId, path) {
      MatchesIsCovers(path, c.pathPrefix);
    }
    if ResolvedOwner(components, repoId, path).Some? {
      var c :| FirstLongestIs(refs, path, c) && c.componentId == ResolvedOwner(components, repoId, path).value;
      LongestOfAll(refs, path, c);
      assert Candidate(c, repoId, path);
    }
  }

  lemma LongestOfAll(refs: seq<ComponentRef>, path: string, c: ComponentRef)
    requires FirstLongestIs(refs, path, c)
    ensures c in refs && MatchesPrefix(path, c.pathPrefix)
    ensures forall d | d in refs && MatchesPrefix(path, d.pathPrefix) :: |d.pathPrefix| <= |c.pathPrefix|
  {
    var i: nat :| FirstLongest(refs, path, i) && refs[i] == c;
    forall d | d in refs && MatchesPrefix(path, d.pathPrefix) ensures |d.pathPrefix| <= |c.pathPrefix| {
      var j :| 0 <= j < |refs| && refs[j] == d;
    }
  }

  // ---- ComponentIndex ---------------------------------------------------------------

  function GetRefs(groups: map<string, seq<ComponentRef>>, repoId: string): seq<ComponentRef> {
    if repoId in groups then groups[repoId] else []
  }

  class ComponentIndex {
    var byRepo: map<string, seq<ComponentRef>>
    ghost const components: seq<ComponentRef>

    ghost predicate Valid()
      reads this
    {
      forall repoId: string :: GetRefs(byRepo, repoId) == RefsOf(components, repoId)
    }

    constructor (refs: seq<ComponentRef>)
      ensures Valid() && components == refs
    {
      var grouped: map<string, seq<ComponentRef>> := map[];
      for i := 0 to |refs|
        invariant forall repoId: string :: GetRefs(grouped, repoId) == Filter(refs[..i], InRepository(repoId))
      {
        forall repoId: string
          ensures Filter(refs[..i + 1], InRepository(repoId))
               == Filter(refs[..i], InRepository(repoId)) + if refs[i].repoId == repoId then [refs[i]] else []
        {
          FilterTake(refs, InRepository(repoId), i);
        }
        grouped := grouped[refs[i].repoId := GetRefs(grouped, refs[i].repoId) + [refs[i]]];
      }
      assert refs[..|refs|] == refs;
      components := refs;
      byRepo := map repoId | repoId in grouped :: LongestFirst(grouped[repoId]);
      new;
      forall repoId: string ensures GetRefs(byRepo, repoId) == RefsOf(components, repoId) {
        assert GetRefs(grouped, repoId) == Filter(refs, InRepository(repoId));
      }
    }

    method Resolve(repoId: string, path: string) returns (owner: Option<string>)
      requires Valid()
      ensures owner == ResolvedOwner(components, repoId, path)
    {
      var refs := GetRefs(byRepo, repoId);
      for i := 0 to |refs|
        invariant FirstRef(refs[i..], path) == FirstRef(refs, path)
      {
        if MatchesPrefix(path, refs[i].pathPrefix) {
          return Some(refs[i].componentId);
        }
      }
      owner := None;
    }
  }
}
