// Matching the HTTP endpoints of a file before and after a change
// (code_graph/cross_repo_impact.py).
module ContractChanges {
  import opened Lists
  import opened Strings
  import opened Sorting
  import opened CodeGraph

  datatype Change =
    | Touched(before: HttpEndpoint, after: HttpEndpoint)
    | Modified(before: HttpEndpoint, after: HttpEndpoint)
    | Removed(before: HttpEndpoint)
    | Added(after: HttpEndpoint)

  datatype Identity = Identity(role: Role, httpMethod: string, normalizedRoute: string)

  datatype PairIdentity = PairIdentity(role: Role, path: string, symbolName: Option<string>)

  datatype ChangedFile = ChangedFile(path: string, baseContent: string, fullContent: string)

  function IdentityOf(e: HttpEndpoint): Identity {
    Identity(e.role, e.httpMethod, e.normalizedRoute)
  }

  function PairIdentityOf(e: HttpEndpoint): PairIdentity {
    PairIdentity(e.role, e.path, e.symbolName)
  }

  function HasIdentity(k: Identity): HttpEndpoint -> bool {
    (e: HttpEndpoint) => IdentityOf(e) == k
  }

  function HasPair(k: PairIdentity): HttpEndpoint -> bool {
    (e: HttpEndpoint) => PairIdentityOf(e) == k
  }

  function BeforeOf(c: Change): seq<HttpEndpoint> {
    if c.Added? then [] else [c.before]
  }

  function AfterOf(c: Change): seq<HttpEndpoint> {
    if c.Removed? then [] else [c.after]
  }

  function Befores(changes: seq<Change>): seq<HttpEndpoint> {
    FlatMap(changes, BeforeOf)
  }

  function Afters(changes: seq<Change>): seq<HttpEndpoint> {
    FlatMap(changes, AfterOf)
  }

  // ---- list.remove ------------------------------------------------------------------

  // xs without its first x.
  function Remove<T(==)>(xs: seq<T>, x: T): seq<T> {
    if xs == [] then []
    else if xs[0] == x then xs[1..]
    else [xs[0]] + Remove(xs[1..], x)
  }

  // xs without one occurrence of each element of ys.
  function Less<T(==)>(xs: seq<T>, ys: seq<T>): seq<T> {
    if ys == [] then xs else Remove(Less(xs, ys[..|ys| - 1]), ys[|ys| - 1])
  }

  lemma {:induction false} RemoveBag<T>(xs: seq<T>, x: T)
    ensures multiset(Remove(xs, x)) == multiset(xs) - multiset{x}
  {
    if xs != [] {
      assert xs == [xs[0]] + xs[1..];
      RemoveBag(xs[1..], x);
    }
  }

  lemma {:induction false} LessBag<T>(xs: seq<T>, ys: seq<T>)
    ensures multiset(Less(xs, ys)) == multiset(xs) - multiset(ys)
    decreases |ys|
  {
    if ys != [] {
      InitLast(ys);
      LessBag(xs, ys[..|ys| - 1]);
      RemoveBag(Less(xs, ys[..|ys| - 1]), ys[|ys| - 1]);
    }
  }

  lemma LessSnoc<T>(xs: seq<T>, ys: seq<T>, y: T)
    ensures Less(xs, ys + [y]) == Remove(Less(xs, ys), y)
  {
    assert (ys + [y])[..|ys|] == ys;
  }

  method RemoveFirst<T(==)>(xs: seq<T>, x: T) returns (rest: seq<T>)
    requires x in xs
    ensures rest == Remove(xs, x)
  {
    rest := Remove(xs, x);
  }

  lemma LessFilter<T>(xs: seq<T>, ys: seq<T>, keep: T -> bool)
    requires multiset(ys) <= multiset(xs)
    ensures |Filter(Less(xs, ys), keep)| == |Filter(xs, keep)| - |Filter(ys, keep)|
  {
    var rest := Less(xs, ys);
    LessBag(xs, ys);
    assert multiset(rest + ys) == multiset(xs);
    FilterSameBag(rest + ys, xs, keep);
    SameBagSameLength(Filter(rest + ys, keep), Filter(xs, keep));
    FilterAppend(rest, ys, keep);
  }

  // ---- The two matching passes ------------------------------------------------------------

  // The touched pairs found while going through `before`.
  function TouchedIn(before: seq<HttpEndpoint>, after: seq<HttpEndpoint>): seq<Change> {
    if before == [] then []
    else
      var found := TouchedIn(before[..|before| - 1], after);
      found + TouchedBy(before[|before| - 1], Less(after, Afters(found)))
  }

  function TouchedBy(e: HttpEndpoint, afterRemaining: seq<HttpEndpoint>): seq<Change> {
    var matches := Filter(afterRemaining, HasIdentity(IdentityOf(e)));
    if |matches| == 1 then [Touched(e, matches[0])] else []
  }

  // The modified pairs found while going through `olds`.
  function ModifiedIn(olds: seq<HttpEndpoint>, before: seq<HttpEndpoint>, after: seq<HttpEndpoint>): seq<Change> {
    if olds == [] then []
    else
      var found := ModifiedIn(olds[..|olds| - 1], before, after);
      found + ModifiedBy(olds[|olds| - 1], Less(before, Befores(found)), Less(after, Afters(found)))
  }

  function ModifiedBy(e: HttpEndpoint, beforeRemaining: seq<HttpEndpoint>,
                      afterRemaining: seq<HttpEndpoint>): seq<Change>
  {
    var key := PairIdentityOf(e);
    var candidates := Filter(afterRemaining, HasPair(key));
    if key.symbolName.None? || |Filter(beforeRemaining, HasPair(key))| != 1 || |candidates| != 1 then []
    else [Modified(e, candidates[0])]
  }

  function RemovedAll(rest: seq<HttpEndpoint>): seq<Change> {
    seq(|rest|, i requires 0 <= i < |rest| => Removed(rest[i]))
  }

  function AddedAll(rest: seq<HttpEndpoint>): seq<Change> {
    seq(|rest|, i requires 0 <= i < |rest| => Added(rest[i]))
  }

  // What the second pass starts from.
  function BeforeLeft(before: seq<HttpEndpoint>, after: seq<HttpEndpoint>): seq<HttpEndpoint> {
    Less(before, Befores(TouchedIn(before, after)))
  }

  function AfterLeft(before: seq<HttpEndpoint>, after: seq<HttpEndpoint>): seq<HttpEndpoint> {
    Less(after, Afters(TouchedIn(before, after)))
  }

  function Modifications(before: seq<HttpEndpoint>, after: seq<HttpEndpoint>): seq<Change> {
    ModifiedIn(BeforeLeft(before, after), BeforeLeft(before, after), AfterLeft(before, after))
  }

  function RemovedIn(before: seq<HttpEndpoint>, after: seq<HttpEndpoint>): seq<HttpEndpoint> {
    Less(BeforeLeft(before, after), Befores(Modifications(before, after)))
  }

  function AddedIn(before: seq<HttpEndpoint>, after: seq<HttpEndpoint>): seq<HttpEndpoint> {
    Less(AfterLeft(before, after), Afters(Modifications(before, after)))
  }

  function FileChanges(before: seq<HttpEndpoint>, after: seq<HttpEndpoint>): seq<Change> {
    TouchedIn(before, after) + Modifications(before, after)
    + RemovedAll(RemovedIn(before, after)) + AddedAll(AddedIn(before, after))
  }

  // ---- What the passes find comes from the lists they go through ------------------------------

  lemma MatchedIsThere(xs: seq<HttpEndpoint>, keep: HttpEndpoint -> bool)
    requires |Filter(xs, keep)| == 1
    ensures Filter(xs, keep)[0] in xs && keep(Filter(xs, keep)[0])
  {
    FilterMember(xs, keep, Filter(xs, keep)[0]);
  }

  lemma FoundSnoc(found: seq<Change>, c: Change)
    requires c.Touched? || c.Modified?
    ensures Befores(found + [c]) == Befores(found) + [c.before]
    ensures Afters(found + [c]) == Afters(found) + [c.after]
  {
    FlatMapSnoc(found, BeforeOf, c);
    FlatMapSnoc(found, AfterOf, c);
  }

  lemma TakeOne<T>(xs: seq<T>, ys: seq<T>, x: T)
    requires multiset(ys) <= multiset(xs) && x in Less(xs, ys)
    ensures multiset(ys + [x]) <= multiset(xs)
  {
    LessBag(xs, ys);
    assert x in multiset(Less(xs, ys));
  }

  // One step of the first pass.
  lemma TouchedStep(before: seq<HttpEndpoint>, after: seq<HttpEndpoint>)
    returns (found: seq<Change>, hit: Option<HttpEndpoint>)
    requires before != []
    ensures found == TouchedIn(before[..|before| - 1], after)
    ensures hit.None? ==> TouchedIn(before, after) == found
    ensures hit.Some? ==>
      && TouchedIn(before, after) == found + [Touched(before[|before| - 1], hit.value)]
      && hit.value in Less(after, Afters(found))
      && IdentityOf(hit.value) == IdentityOf(before[|before| - 1])
    ensures hit.Some? <==>
      |Filter(Less(after, Afters(found)), HasIdentity(IdentityOf(before[|before| - 1])))| == 1
  {
    var e := before[|before| - 1];
    found := TouchedIn(before[..|before| - 1], after);
    var rest := Less(after, Afters(found));
    if |Filter(rest, HasIdentity(IdentityOf(e)))| == 1 {
      MatchedIsThere(rest, HasIdentity(IdentityOf(e)));
      hit := Some(Filter(rest, HasIdentity(IdentityOf(e)))[0]);
    } else {
      hit := None;
    }
  }

  lemma {:induction false} TouchedWithin(before: seq<HttpEndpoint>, after: seq<HttpEndpoint>)
    ensures multiset(Befores(TouchedIn(before, after))) <= multiset(before)
    ensures multiset(Afters(TouchedIn(before, after))) <= multiset(after)
  {
    if before != [] {
      InitLast(before);
      TouchedWithin(before[..|before| - 1], after);
      var found, hit := TouchedStep(before, after);
      if hit.Some? {
        FoundSnoc(found, Touched(before[|before| - 1], hit.value));
        TakeOne(after, Afters(found), hit.value);
      }
    }
  }

  // One step of the second pass.
  lemma ModifiedStep(olds: seq<HttpEndpoint>, before: seq<HttpEndpoint>, after: seq<HttpEndpoint>)
    returns (found: seq<Change>, hit: Option<HttpEndpoint>)
    requires olds != []
    ensures found == ModifiedIn(olds[..|olds| - 1], before, after)
    ensures hit.None? ==> ModifiedIn(olds, before, after) == found
    ensures hit.Some? ==>
      && ModifiedIn(olds, before, after) == found + [Modified(olds[|olds| - 1], hit.value)]
      && hit.value in Less(after, Afters(found))
      && PairIdentityOf(hit.value) == PairIdentityOf(olds[|olds| - 1])
    ensures hit.Some? <==>
      && olds[|olds| - 1].symbolName.Some?
      && |Filter(Less(before, Befores(found)), HasPair(PairIdentityOf(olds[|olds| - 1])))| == 1
      && |Filter(Less(after, Afters(found)), HasPair(PairIdentityOf(olds[|olds| - 1])))| == 1
  {
    var e := olds[|olds| - 1];
    var key := PairIdentityOf(e);
    found := ModifiedIn(olds[..|olds| - 1], before, after);
    var beforeRest, afterRest := Less(before, Befores(found)), Less(after, Afters(found));
    if ModifiedBy(e, beforeRest, afterRest) != [] {
      MatchedIsThere(afterRest, HasPair(key));
      hit := Some(Filter(afterRest, HasPair(key))[0]);
    } else {
      hit := None;
    }
  }

  lemma {:induction false} ModifiedWithin(olds: seq<HttpEndpoint>, before: seq<HttpEndpoint>, after: seq<HttpEndpoint>)
    ensures multiset(Befores(ModifiedIn(olds, before, after))) <= multiset(olds)
    ensures multiset(Afters(ModifiedIn(olds, before, after))) <= multiset(after)
    decreases |olds|
  {
    if olds != [] {
      InitLast(olds);
      ModifiedWithin(olds[..|olds| - 1], before, after);
      var found, hit := ModifiedStep(olds, before, after);
      if hit.Some? {
        FoundSnoc(found, Modified(olds[|olds| - 1], hit.value));
        TakeOne(after, Afters(found), hit.value);
      }
    }
  }

  // ---- The methods -----------------------------------------------------------------------

  // The first pass over one file.
  method MatchTouched(before: seq<HttpEndpoint>, after: seq<HttpEndpoint>)
    returns (changes: seq<Change>, beforeRemaining: seq<HttpEndpoint>, afterRemaining: seq<HttpEndpoint>)
    ensures changes == TouchedIn(before, after)
    ensures beforeRemaining == BeforeLeft(before, after) && afterRemaining == AfterLeft(before, after)
  {
    changes, beforeRemaining, afterRemaining := [], before, after;
    assert before[..0] == [];
    for i := 0 to |before|
      invariant TouchedSoFar(before, after, i, changes, beforeRemaining, afterRemaining)
    {
      var matches := Filter(afterRemaining, HasIdentity(IdentityOf(before[i])));
      if |matches| == 1 {
        TouchedHit(before, after, i, changes, beforeRemaining, afterRemaining);
        beforeRemaining := RemoveFirst(beforeRemaining, before[i]);
        afterRemaining := RemoveFirst(afterRemaining, matches[0]);
        changes := changes + [Touched(before[i], matches[0])];
      } else {
        TouchedMiss(before, after, i, changes, beforeRemaining, afterRemaining);
      }
    }
    assert before[..|before|] == before;
  }

  lemma TouchedMiss(before: seq<HttpEndpoint>, after: seq<HttpEndpoint>, i: nat,
                    changes: seq<Change>, beforeRemaining: seq<HttpEndpoint>, afterRemaining: seq<HttpEndpoint>)
    requires i < |before| && TouchedSoFar(before, after, i, changes, beforeRemaining, afterRemaining)
    requires |Filter(afterRemaining, HasIdentity(IdentityOf(before[i])))| != 1
    ensures TouchedSoFar(before, after, i + 1, changes, beforeRemaining, afterRemaining)
  {
    TouchedNext(before, after, i);
  }

  ghost predicate TouchedSoFar(before: seq<HttpEndpoint>, after: seq<HttpEndpoint>, i: nat,
                               changes: seq<Change>, beforeRemaining: seq<HttpEndpoint>,
                               afterRemaining: seq<HttpEndpoint>)
  {
    && i <= |before|
    && changes == TouchedIn(before[..i], after)
    && beforeRemaining == Less(before, Befores(changes))
    && afterRemaining == Less(after, Afters(changes))
  }

  lemma TouchedHit(before: seq<HttpEndpoint>, after: seq<HttpEndpoint>, i: nat,
                   changes: seq<Change>, beforeRemaining: seq<HttpEndpoint>, afterRemaining: seq<HttpEndpoint>)
    requires i < |before| && TouchedSoFar(before, after, i, changes, beforeRemaining, afterRemaining)
    requires |Filter(afterRemaining, HasIdentity(IdentityOf(before[i])))| == 1
    ensures before[i] in beforeRemaining
    ensures (var partner := Filter(afterRemaining, HasIdentity(IdentityOf(before[i])))[0];
             partner in afterRemaining
             && TouchedSoFar(before, after, i + 1, changes + [Touched(before[i], partner)],
                             Remove(beforeRemaining, before[i]), Remove(afterRemaining, partner)))
  {
    var partner := Filter(afterRemaining, HasIdentity(IdentityOf(before[i])))[0];
    MatchedIsThere(afterRemaining, HasIdentity(IdentityOf(before[i])));
    TouchedWithin(before[..i], after);
    StillThere(before, Befores(changes), i);
    Recorded(before, after, changes, Touched(before[i], partner));
    TouchedNext(before, after, i);
  }

  lemma TouchedNext(before: seq<HttpEndpoint>, after: seq<HttpEndpoint>, i: nat)
    requires i < |before|
    ensures (var found := TouchedIn(before[..i], after);
             TouchedIn(before[..i + 1], after) == found + TouchedBy(before[i], Less(after, Afters(found))))
  {
    assert before[..i + 1][..i] == before[..i];
  }

  lemma ModifiedNext(olds: seq<HttpEndpoint>, before: seq<HttpEndpoint>, after: seq<HttpEndpoint>, i: nat)
    requires i < |olds|
    ensures (var found := ModifiedIn(olds[..i], before, after);
             ModifiedIn(olds[..i + 1], before, after)
             == found + ModifiedBy(olds[i], Less(before, Befores(found)), Less(after, Afters(found))))
  {
    assert olds[..i + 1][..i] == olds[..i];
  }

  lemma StillThere<T>(xs: seq<T>, taken: seq<T>, i: nat)
    requires i < |xs| && multiset(taken) <= multiset(xs[..i])
    ensures xs[i] in Less(xs, taken)
  {
    LessBag(xs, taken);
    assert xs == xs[..i] + [xs[i]] + xs[i + 1..];
    assert multiset(Less(xs, taken))[xs[i]] > 0;
  }

  lemma Recorded(before: seq<HttpEndpoint>, after: seq<HttpEndpoint>, found: seq<Change>, c: Change)
    requires c.Touched? || c.Modified?
    ensures Less(before, Befores(found + [c])) == Remove(Less(before, Befores(found)), c.before)
    ensures Less(after, Afters(found + [c])) == Remove(Less(after, Afters(found)), c.after)
  {
    FoundSnoc(found, c);
    LessSnoc(before, Befores(found), c.before);
    LessSnoc(after, Afters(found), c.after);
  }

  // The second pass over one file.
  method MatchModified(before: seq<HttpEndpoint>, after: seq<HttpEndpoint>)
    returns (changes: seq<Change>, beforeRemaining: seq<HttpEndpoint>, afterRemaining: seq<HttpEndpoint>)
    ensures changes == ModifiedIn(before, before, after)
    ensures beforeRemaining == Less(before, Befores(changes)) && afterRemaining == Less(after, Afters(changes))
  {
    changes, beforeRemaining, afterRemaining := [], before, after;
    for i := 0 to |before|
      invariant changes == ModifiedIn(before[..i], before, after)
      invariant beforeRemaining == Less(before, Befores(changes))
      invariant afterRemaining == Less(after, Afters(changes))
    {
      ghost var found := changes;
      ModifiedNext(before, before, after, i);
      var key := PairIdentityOf(before[i]);
      if key.symbolName.None? {
        continue;
      }
      var oldCandidates := Filter(beforeRemaining, HasPair(key));
      var newCandidates := Filter(afterRemaining, HasPair(key));
      if |oldCandidates| != 1 || |newCandidates| != 1 {
        continue;
      }
      var partner := newCandidates[0];
      MatchedIsThere(afterRemaining, HasPair(key));
      StillThere(before, Befores(found), i) by { ModifiedWithin(before[..i], before, after); }
      beforeRemaining := RemoveFirst(beforeRemaining, before[i]);
      afterRemaining := RemoveFirst(afterRemaining, partner);
      changes := changes + [Modified(before[i], partner)];
      Recorded(before, after, found, Modified(before[i], partner));
    }
    assert before[..|before|] == before;
  }

  method MatchFile(before: seq<HttpEndpoint>, after: seq<HttpEndpoint>) returns (changes: seq<Change>)
    ensures changes == FileChanges(before, after)
  {
    var touched, beforeRest, afterRest := MatchTouched(before, after);
    var modified, removed, added := MatchModified(beforeRest, afterRest);
    changes := touched + modified + RemovedAll(removed) + AddedAll(added);
  }

  function ChangesOf(extract: (string, string) -> seq<HttpEndpoint>): ChangedFile -> seq<Change> {
    (f: ChangedFile) =>
      if f.path == "" then []
      else FileChanges(EndpointsOf(f.path, f.baseContent, extract), EndpointsOf(f.path, f.fullContent, extract))
  }

  // _extract_file_endpoints
  function EndpointsOf(path: string, content: string,
                       extract: (string, string) -> seq<HttpEndpoint>): seq<HttpEndpoint>
  {
    if content == "" then [] else extract(path, content)
  }

  // ---- The order of the result ---------------------------------------------------------

  function EndpointOf(c: Change): HttpEndpoint {
    if c.Removed? then c.before else c.after
  }

  function TypeName(c: Change): string {
    match c
    case Touched(_, _) => "touched"
    case Modified(_, _) => "modified"
    case Removed(_) => "removed"
    case Added(_) => "added"
  }

  // By path, type of change, method and route.
  predicate ChangeLe(a: Change, b: Change) {
    ThenBy(EndpointOf(a).path, EndpointOf(b).path, TypeLe(a, b))
  }

  predicate TypeLe(a: Change, b: Change) {
    ThenBy(TypeName(a), TypeName(b), MethodLe(EndpointOf(a), EndpointOf(b)))
  }

  predicate MethodLe(a: HttpEndpoint, b: HttpEndpoint) {
    ThenBy(a.httpMethod, b.httpMethod, LexLe(a.normalizedRoute, b.normalizedRoute))
  }

  // The first of path, type, method and route in which they differ is smaller.
  predicate NotAfter(a: Change, b: Change) {
    var x, y := if a.Removed? then a.before else a.after, if b.Removed? then b.before else b.after;
    && LexLe(x.path, y.path)
    && (x.path == y.path ==> LexLe(TypeName(a), TypeName(b)))
    && (x.path == y.path && TypeName(a) == TypeName(b) ==> LexLe(x.httpMethod, y.httpMethod))
    && (x.path == y.path && TypeName(a) == TypeName(b) && x.httpMethod == y.httpMethod ==>
          LexLe(x.normalizedRoute, y.normalizedRoute))
  }

  lemma LeIsNotAfter(a: Change, b: Change)
    requires ChangeLe(a, b)
    ensures NotAfter(a, b)
  {
    LexTotal(EndpointOf(a).path, EndpointOf(a).path);
    LexTotal(TypeName(a), TypeName(a));
    LexTotal(EndpointOf(a).httpMethod, EndpointOf(a).httpMethod);
  }

  lemma ChangesCompare(a: Change, b: Change)
    ensures ChangeLe(a, b) || ChangeLe(b, a)
  {
    var x, y := EndpointOf(a), EndpointOf(b);
    LexTotal(x.normalizedRoute, y.normalizedRoute);
    ThenByTotal(x.httpMethod, y.httpMethod, LexLe(x.normalizedRoute, y.normalizedRoute),
                LexLe(y.normalizedRoute, x.normalizedRoute));
    ThenByTotal(TypeName(a), TypeName(b), MethodLe(x, y), MethodLe(y, x));
    ThenByTotal(x.path, y.path, TypeLe(a, b), TypeLe(b, a));
  }

  lemma MethodsPass(a: HttpEndpoint, b: HttpEndpoint, c: HttpEndpoint)
    ensures MethodLe(a, b) && MethodLe(b, c) ==> MethodLe(a, c)
  {
    var x, y, z := a.normalizedRoute, b.normalizedRoute, c.normalizedRoute;
    if MethodLe(a, b) && MethodLe(b, c) {
      if LexLe(x, y) && LexLe(y, z) { LexTransitive(x, y, z); }
      ThenByPasses(a.httpMethod, b.httpMethod, c.httpMethod, LexLe(x, y), LexLe(y, z), LexLe(x, z));
    }
  }

  lemma TypesPass(a: Change, b: Change, c: Change)
    ensures TypeLe(a, b) && TypeLe(b, c) ==> TypeLe(a, c)
  {
    var x, y, z := EndpointOf(a), EndpointOf(b), EndpointOf(c);
    if TypeLe(a, b) && TypeLe(b, c) {
      MethodsPass(x, y, z);
      ThenByPasses(TypeName(a), TypeName(b), TypeName(c), MethodLe(x, y), MethodLe(y, z), MethodLe(x, z));
    }
  }

  lemma ChangesPass(a: Change, b: Change, c: Change)
    requires ChangeLe(a, b) && ChangeLe(b, c)
    ensures ChangeLe(a, c)
  {
    TypesPass(a, b, c);
    ThenByPasses(EndpointOf(a).path, EndpointOf(b).path, EndpointOf(c).path, TypeLe(a, b), TypeLe(b, c), TypeLe(a, c));
  }

  lemma ChangeOrder()
    ensures TotalOrder(ChangeLe)
  {
    forall a: Change, b: Change ensures Comparable(ChangeLe, a, b) {
      ChangesCompare(a, b);
    }
    forall a: Change, b: Change, c: Change ensures Passes(ChangeLe, a, b, c) {
      if ChangeLe(a, b) && ChangeLe(b, c) { ChangesPass(a, b, c); }
    }
  }

  // extract_contract_changes
  method ExtractContractChanges(changedFiles: seq<ChangedFile>, extract: (string, string) -> seq<HttpEndpoint>)
    returns (changes: seq<Change>)
    ensures changes == SortBy(FlatMap(changedFiles, ChangesOf(extract)), ChangeLe)
    ensures SortedBy(changes, ChangeLe) && multiset(changes) == multiset(FlatMap(changedFiles, ChangesOf(extract)))
    ensures forall i, j | 0 <= i < j < |changes| :: NotAfter(changes[i], changes[j])
  {
    var found: seq<Change> := [];
    for i := 0 to |changedFiles|
      invariant found == FlatMap(changedFiles[..i], ChangesOf(extract))
    {
      var file := changedFiles[i];
      FlatMapTake(changedFiles, ChangesOf(extract), i);
      if file.path == "" {
        continue;
      }
      var more := MatchFile(EndpointsOf(file.path, file.baseContent, extract),
          EndpointsOf(file.path, file.fullContent, extract));
      found := found + more;
    }
    assert changedFiles[..|changedFiles|] == changedFiles;
    ChangeOrder();
    SortSorts(found, ChangeLe);
    SortBag(found, ChangeLe);
    changes := SortBy(found, ChangeLe);
    forall i, j | 0 <= i < j < |changes| ensures NotAfter(changes[i], changes[j]) {
      LeIsNotAfter(changes[i], changes[j]);
    }
  }
}
