// The changes of a file, said of the fields of its endpoints (code_graph/cross_repo_impact.py).
module ContractExact {
  import opened Lists
  import opened CodeGraph
  import opened ContractChanges
  import opened ContractLaws

  // An endpoint with this role, method and normalised route; one of this handler.
  function Offers(role: Role, httpMethod: string, route: string): HttpEndpoint -> bool {
    (e: HttpEndpoint) => e.role == role && e.httpMethod == httpMethod && e.normalizedRoute == route
  }

  function HandledBy(role: Role, path: string, name: Option<string>): HttpEndpoint -> bool {
    (e: HttpEndpoint) => e.role == role && e.path == path && e.symbolName == name
  }

  function TouchedWith(keep: HttpEndpoint -> bool): Change -> bool {
    (c: Change) => c.Touched? && keep(c.after)
  }

  function TouchedFrom(keep: HttpEndpoint -> bool): Change -> bool {
    (c: Change) => c.Touched? && keep(c.before)
  }

  function ModifiedWith(keep: HttpEndpoint -> bool): Change -> bool {
    (c: Change) => c.Modified? && keep(c.after)
  }

  // ---- The parts of the list of changes -----------------------------------------------------

  lemma CountFour<T>(a: seq<T>, b: seq<T>, c: seq<T>, d: seq<T>, q: T -> bool)
    ensures Count(a + b + c + d, q) == Count(a, q) + Count(b, q) + Count(c, q) + Count(d, q)
  {
    FilterAppend(a + b + c, d, q);
    FilterAppend(a + b, c, q);
    FilterAppend(a, b, q);
  }

  lemma CountNothing<T>(xs: seq<T>, q: T -> bool)
    requires forall x | x in xs :: !q(x)
    ensures Count(xs, q) == 0
  {
    FilterNone(xs, q);
  }

  lemma PartKinds(before: seq<HttpEndpoint>, after: seq<HttpEndpoint>)
    ensures forall c | c in TouchedIn(before, after) :: c.Touched?
    ensures forall c | c in Modifications(before, after) :: c.Modified?
  {
    forall c | c in TouchedIn(before, after) ensures c.Touched? {
      TouchedPairs(before, after, c);
    }
    forall c | c in Modifications(before, after) ensures c.Modified? {
      ModifiedPairs(BeforeLeft(before, after), BeforeLeft(before, after), AfterLeft(before, after), c);
    }
  }

  // Touched changes come from the first pass, modified ones from the second.
  lemma PartOfKind(before: seq<HttpEndpoint>, after: seq<HttpEndpoint>, c: Change)
    requires c in FileChanges(before, after)
    ensures c.Touched? ==> c in TouchedIn(before, after)
    ensures c.Modified? ==> c in Modifications(before, after)
  {
    PartKinds(before, after);
    SomePart(TouchedIn(before, after), Modifications(before, after), RemovedAll(RemovedIn(before, after)),
             AddedAll(AddedIn(before, after)), c);
  }

  lemma SomePart<T>(a: seq<T>, b: seq<T>, c: seq<T>, d: seq<T>, x: T)
    requires x in a + b + c + d
    ensures x in a || x in b || x in c || x in d
  {
  }

  lemma OnlyTouched(before: seq<HttpEndpoint>, after: seq<HttpEndpoint>, q: Change -> bool)
    requires forall c: Change | q(c) :: c.Touched?
    ensures Count(FileChanges(before, after), q) == Count(TouchedIn(before, after), q)
  {
    PartKinds(before, after);
    CountFour(TouchedIn(before, after), Modifications(before, after), RemovedAll(RemovedIn(before, after)),
              AddedAll(AddedIn(before, after)), q);
    CountNothing(Modifications(before, after), q);
    CountNothing(RemovedAll(RemovedIn(before, after)), q);
    CountNothing(AddedAll(AddedIn(before, after)), q);
  }

  lemma OnlyModified(before: seq<HttpEndpoint>, after: seq<HttpEndpoint>, q: Change -> bool)
    requires forall c: Change | q(c) :: c.Modified?
    ensures Count(FileChanges(before, after), q) == Count(Modifications(before, after), q)
  {
    PartKinds(before, after);
    CountFour(TouchedIn(before, after), Modifications(before, after), RemovedAll(RemovedIn(before, after)),
              AddedAll(AddedIn(before, after)), q);
    CountNothing(TouchedIn(before, after), q);
    CountNothing(RemovedAll(RemovedIn(before, after)), q);
    CountNothing(AddedAll(AddedIn(before, after)), q);
  }

  // Counting changes by an endpoint of theirs.
  lemma {:induction false} CountMapped(changes: seq<Change>, f: Change -> seq<HttpEndpoint>, q: Change -> bool,
                                       keep: HttpEndpoint -> bool)
    requires forall c | c in changes :: Count(f(c), keep) == if q(c) then 1 else 0
    ensures Count(FlatMap(changes, f), keep) == Count(changes, q)
  {
    if changes != [] {
      var init, last := changes[..|changes| - 1], changes[|changes| - 1];
      CountMapped(init, f, q, keep);
      FilterAppend(FlatMap(init, f), f(last), keep);
      assert last in changes;
    }
  }

  lemma AftersCounted(changes: seq<Change>, q: Change -> bool, keep: HttpEndpoint -> bool)
    requires forall c | c in changes :: !c.Removed? && (q(c) <==> keep(c.after))
    ensures Count(Afters(changes), keep) == Count(changes, q)
  {
    forall c | c in changes ensures Count(AfterOf(c), keep) == if q(c) then 1 else 0 {
      FilterOne(c.after, keep);
    }
    CountMapped(changes, AfterOf, q, keep);
  }

  lemma BeforesCounted(changes: seq<Change>, q: Change -> bool, keep: HttpEndpoint -> bool)
    requires forall c | c in changes :: !c.Added? && (q(c) <==> keep(c.before))
    ensures Count(Befores(changes), keep) == Count(changes, q)
  {
    forall c | c in changes ensures Count(BeforeOf(c), keep) == if q(c) then 1 else 0 {
      FilterOne(c.before, keep);
    }
    CountMapped(changes, BeforeOf, q, keep);
  }

  // ---- Touched ---------------------------------------------------------------------------------

  lemma SameOffer(xs: seq<HttpEndpoint>, k: Identity)
    ensures Filter(xs, HasIdentity(k)) == Filter(xs, Offers(k.role, k.httpMethod, k.normalizedRoute))
  {
    FilterSame(xs, HasIdentity(k), Offers(k.role, k.httpMethod, k.normalizedRoute));
  }

  // A role, method and route is touched, once, exactly when it stands once in the new file
  // and at least once in the old one.
  lemma TouchedByFields(before: seq<HttpEndpoint>, after: seq<HttpEndpoint>, role: Role, httpMethod: string,
                        route: string)
    ensures (var offers := Offers(role, httpMethod, route);
             Count(FileChanges(before, after), TouchedWith(offers))
             == if Count(after, offers) == 1 && Count(before, offers) >= 1 then 1 else 0)
  {
    var k, offers := Identity(role, httpMethod, route), Offers(role, httpMethod, route);
    OnlyTouched(before, after, TouchedWith(offers));
    PartKinds(before, after);
    AftersCounted(TouchedIn(before, after), TouchedWith(offers), offers);
    TouchedExactly(before, after, k);
    SameOffer(Afters(TouchedIn(before, after)), k);
    SameOffer(before, k);
    SameOffer(after, k);
  }

  // It joins the first endpoint with these in the old file with the only one in the new.
  lemma TouchedJoins(before: seq<HttpEndpoint>, after: seq<HttpEndpoint>, c: Change)
    requires c in FileChanges(before, after) && c.Touched?
    ensures (var offers := Offers(c.after.role, c.after.httpMethod, c.after.normalizedRoute);
             && Filter(after, offers) == [c.after]
             && Filter(before, offers) != [] && Filter(before, offers)[0] == c.before)
  {
    PartOfKind(before, after, c);
    TouchedPairs(before, after, c);
    SameOffer(before, IdentityOf(c.after));
    SameOffer(after, IdentityOf(c.after));
  }

  // ---- Modified ----------------------------------------------------------------------------------

  lemma SameHandler(xs: seq<HttpEndpoint>, k: PairIdentity)
    ensures Filter(xs, HasPair(k)) == Filter(xs, HandledBy(k.role, k.path, k.symbolName))
  {
    FilterSame(xs, HasPair(k), HandledBy(k.role, k.path, k.symbolName));
  }

  // A handler is modified, once, exactly when it has a name and one endpoint of it, in the
  // old file and in the new one, is in no touched change.
  lemma ModifiedByFields(before: seq<HttpEndpoint>, after: seq<HttpEndpoint>, role: Role, path: string,
                         name: Option<string>)
    ensures (var handled := HandledBy(role, path, name);
             var changes := FileChanges(before, after);
             Count(changes, ModifiedWith(handled))
             == if name.Some? && Count(before, handled) - Count(changes, TouchedFrom(handled)) == 1
                   && Count(after, handled) - Count(changes, TouchedWith(handled)) == 1
                then 1 else 0)
  {
    var k, handled := PairIdentity(role, path, name), HandledBy(role, path, name);
    OnlyModified(before, after, ModifiedWith(handled));
    OnlyTouched(before, after, TouchedFrom(handled));
    OnlyTouched(before, after, TouchedWith(handled));
    PartKinds(before, after);
    AftersCounted(Modifications(before, after), ModifiedWith(handled), handled);
    AftersCounted(TouchedIn(before, after), TouchedWith(handled), handled);
    BeforesCounted(TouchedIn(before, after), TouchedFrom(handled), handled);
    ModifiedExactly(before, after, k);
    LeftCounts(before, after, k);
    SameHandler(Afters(Modifications(before, after)), k);
  }

  lemma LeftCounts(before: seq<HttpEndpoint>, after: seq<HttpEndpoint>, k: PairIdentity)
    ensures (var handled := HandledBy(k.role, k.path, k.symbolName);
             && Count(BeforeLeft(before, after), HasPair(k))
                == Count(before, handled) - Count(Befores(TouchedIn(before, after)), handled)
             && Count(AfterLeft(before, after), HasPair(k))
                == Count(after, handled) - Count(Afters(TouchedIn(before, after)), handled))
  {
    TouchedWithin(before, after);
    LessFilter(before, Befores(TouchedIn(before, after)), HasPair(k));
    LessFilter(after, Afters(TouchedIn(before, after)), HasPair(k));
    SameHandler(before, k);
    SameHandler(after, k);
    SameHandler(Befores(TouchedIn(before, after)), k);
    SameHandler(Afters(TouchedIn(before, after)), k);
  }

  // It joins endpoints of one handler.
  lemma ModifiedJoins(before: seq<HttpEndpoint>, after: seq<HttpEndpoint>, c: Change)
    requires c in FileChanges(before, after) && c.Modified?
    ensures c.before.role == c.after.role && c.before.path == c.after.path
    ensures c.before.symbolName == c.after.symbolName && c.before.symbolName.Some?
  {
    PartOfKind(before, after, c);
    ModifiedPairs(BeforeLeft(before, after), BeforeLeft(before, after), AfterLeft(before, after), c);
  }

  // The changes of a file are those between the endpoints of its two texts.
  lemma ChangesOfTexts(f: ChangedFile, extract: (string, string) -> seq<HttpEndpoint>)
    ensures f.path == "" ==> ChangesOf(extract)(f) == []
    ensures f.path != "" ==>
        ChangesOf(extract)(f) == FileChanges(if f.baseContent == "" then [] else extract(f.path, f.baseContent),
                                             if f.fullContent == "" then [] else extract(f.path, f.fullContent))
  {
  }
}
