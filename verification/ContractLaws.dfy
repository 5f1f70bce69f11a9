// What the two matching passes guarantee (code_graph/cross_repo_impact.py).
module ContractLaws {
  import opened Lists
  import opened Sorting
  import opened CodeGraph
  import opened ContractChanges

  lemma CountSnoc(xs: seq<HttpEndpoint>, x: HttpEndpoint, keep: HttpEndpoint -> bool)
    ensures Count(xs + [x], keep) == Count(xs, keep) + if keep(x) then 1 else 0
  {
    assert (xs + [x])[..|xs|] == xs;
  }

  lemma CountLast(xs: seq<HttpEndpoint>, keep: HttpEndpoint -> bool)
    requires xs != []
    ensures Count(xs, keep) == Count(xs[..|xs| - 1], keep) + if keep(xs[|xs| - 1]) then 1 else 0
  {
  }

  // ---- Conservation ----------------------------------------------------------------------

  lemma {:induction false} RemovedAllBefores(xs: seq<HttpEndpoint>)
    ensures Befores(RemovedAll(xs)) == xs && Afters(RemovedAll(xs)) == []
  {
    if xs != [] {
      var init := xs[..|xs| - 1];
      RemovedAllBefores(init);
      assert RemovedAll(xs) == RemovedAll(init) + [Removed(xs[|xs| - 1])];
      FlatMapSnoc(RemovedAll(init), BeforeOf, Removed(xs[|xs| - 1]));
      FlatMapSnoc(RemovedAll(init), AfterOf, Removed(xs[|xs| - 1]));
      InitLast(xs);
    }
  }

  lemma {:induction false} AddedAllAfters(xs: seq<HttpEndpoint>)
    ensures Afters(AddedAll(xs)) == xs && Befores(AddedAll(xs)) == []
  {
    if xs != [] {
      var init := xs[..|xs| - 1];
      AddedAllAfters(init);
      assert AddedAll(xs) == AddedAll(init) + [Added(xs[|xs| - 1])];
      FlatMapSnoc(AddedAll(init), BeforeOf, Added(xs[|xs| - 1]));
      FlatMapSnoc(AddedAll(init), AfterOf, Added(xs[|xs| - 1]));
      InitLast(xs);
    }
  }

  lemma FlatMapFour(a: seq<Change>, b: seq<Change>, c: seq<Change>, d: seq<Change>, f: Change -> seq<HttpEndpoint>)
    ensures FlatMap(a + b + c + d, f) == FlatMap(a, f) + FlatMap(b, f) + FlatMap(c, f) + FlatMap(d, f)
  {
    FlatMapAppend(a + b + c, d, f);
    FlatMapAppend(a + b, c, f);
    FlatMapAppend(a, b, f);
  }

  lemma FileBefores(before: seq<HttpEndpoint>, after: seq<HttpEndpoint>)
    ensures Befores(FileChanges(before, after))
         == Befores(TouchedIn(before, after)) + Befores(Modifications(before, after)) + RemovedIn(before, after)
  {
    FlatMapFour(TouchedIn(before, after), Modifications(before, after), RemovedAll(RemovedIn(before, after)),
                AddedAll(AddedIn(before, after)), BeforeOf);
    RemovedAllBefores(RemovedIn(before, after));
    AddedAllAfters(AddedIn(before, after));
  }

  lemma FileAfters(before: seq<HttpEndpoint>, after: seq<HttpEndpoint>)
    ensures Afters(FileChanges(before, after))
         == Afters(TouchedIn(before, after)) + Afters(Modifications(before, after)) + AddedIn(before, after)
  {
    FlatMapFour(TouchedIn(before, after), Modifications(before, after), RemovedAll(RemovedIn(before, after)),
                AddedAll(AddedIn(before, after)), AfterOf);
    RemovedAllBefores(RemovedIn(before, after));
    AddedAllAfters(AddedIn(before, after));
  }

  lemma TakenTwice(xs: seq<HttpEndpoint>, a: seq<HttpEndpoint>, b: seq<HttpEndpoint>)
    requires multiset(a) <= multiset(xs) && multiset(b) <= multiset(Less(xs, a))
    ensures multiset(a + b + Less(Less(xs, a), b)) == multiset(xs)
  {
    LessBag(xs, a);
    LessBag(Less(xs, a), b);
  }

  // Every endpoint of the old file is in exactly one touched, modified or removed
  // change, every endpoint of the new file in exactly one touched, modified or added one.
  lemma EndpointsConserved(before: seq<HttpEndpoint>, after: seq<HttpEndpoint>)
    ensures multiset(Befores(FileChanges(before, after))) == multiset(before)
    ensures multiset(Afters(FileChanges(before, after))) == multiset(after)
  {
    FileBefores(before, after);
    FileAfters(before, after);
    TouchedWithin(before, after);
    ModifiedWithin(BeforeLeft(before, after), BeforeLeft(before, after), AfterLeft(before, after));
    TakenTwice(before, Befores(TouchedIn(before, after)), Befores(Modifications(before, after)));
    TakenTwice(after, Afters(TouchedIn(before, after)), Afters(Modifications(before, after)));
  }

  // The endpoints of all files with a path, before and after.
  function OldEndpoints(extract: (string, string) -> seq<HttpEndpoint>): ChangedFile -> seq<HttpEndpoint> {
    (f: ChangedFile) => if f.path == "" || f.baseContent == "" then [] else extract(f.path, f.baseContent)
  }

  function NewEndpoints(extract: (string, string) -> seq<HttpEndpoint>): ChangedFile -> seq<HttpEndpoint> {
    (f: ChangedFile) => if f.path == "" || f.fullContent == "" then [] else extract(f.path, f.fullContent)
  }

  lemma FileConserved(f: ChangedFile, extract: (string, string) -> seq<HttpEndpoint>)
    ensures multiset(Befores(ChangesOf(extract)(f))) == multiset(OldEndpoints(extract)(f))
    ensures multiset(Afters(ChangesOf(extract)(f))) == multiset(NewEndpoints(extract)(f))
  {
    if f.path != "" {
      EndpointsConserved(EndpointsOf(f.path, f.baseContent, extract), EndpointsOf(f.path, f.fullContent, extract));
    }
  }

  lemma {:induction false} FilesConserved(files: seq<ChangedFile>, extract: (string, string) -> seq<HttpEndpoint>)
    ensures multiset(Befores(FlatMap(files, ChangesOf(extract)))) == multiset(FlatMap(files, OldEndpoints(extract)))
    ensures multiset(Afters(FlatMap(files, ChangesOf(extract)))) == multiset(FlatMap(files, NewEndpoints(extract)))
  {
    if files != [] {
      var init, last := files[..|files| - 1], files[|files| - 1];
      FilesConserved(init, extract);
      FileConserved(last, extract);
      FlatMapAppend(FlatMap(init, ChangesOf(extract)), ChangesOf(extract)(last), BeforeOf);
      FlatMapAppend(FlatMap(init, ChangesOf(extract)), ChangesOf(extract)(last), AfterOf);
    }
  }

  // Over all files and in whatever order the changes are returned: every endpoint there
  // was is in exactly one change, and every endpoint there is.
  lemma AllConserved(files: seq<ChangedFile>, extract: (string, string) -> seq<HttpEndpoint>, changes: seq<Change>)
    requires changes == SortBy(FlatMap(files, ChangesOf(extract)), ChangeLe)
    ensures multiset(Befores(changes)) == multiset(FlatMap(files, OldEndpoints(extract)))
    ensures multiset(Afters(changes)) == multiset(FlatMap(files, NewEndpoints(extract)))
  {
    FilesConserved(files, extract);
    SortFlatMap(FlatMap(files, ChangesOf(extract)), ChangeLe, BeforeOf);
    SortFlatMap(FlatMap(files, ChangesOf(extract)), ChangeLe, AfterOf);
  }

  // ---- Which pairs are touched ----------------------------------------------------------------

  // An identity is touched exactly when it stands once in the new file and at
  // least once in the old one, and then it is touched once.
  lemma {:induction false} TouchedExactly(before: seq<HttpEndpoint>, after: seq<HttpEndpoint>, k: Identity)
    ensures Count(Afters(TouchedIn(before, after)), HasIdentity(k))
         == if Count(after, HasIdentity(k)) == 1 && Count(before, HasIdentity(k)) >= 1 then 1 else 0
  {
    if before != [] {
      var e := before[|before| - 1];
      TouchedExactly(before[..|before| - 1], after, k);
      var found, hit := TouchedStep(before, after);
      TouchedWithin(before[..|before| - 1], after);
      LessFilter(after, Afters(found), HasIdentity(k));
      CountLast(before, HasIdentity(k));
      if hit.Some? {
        FoundSnoc(found, Touched(e, hit.value));
        CountSnoc(Afters(found), hit.value, HasIdentity(k));
      }
    }
  }

  lemma OnlyOne(xs: seq<HttpEndpoint>, keep: HttpEndpoint -> bool, x: HttpEndpoint)
    requires Count(xs, keep) == 1 && x in xs && keep(x)
    ensures Filter(xs, keep) == [x]
  {
    FilterMember(xs, keep, x);
  }

  lemma {:induction false} FilterFirst(xs: seq<HttpEndpoint>, keep: HttpEndpoint -> bool)
    requires xs != [] && Filter(xs[..|xs| - 1], keep) != []
    ensures Filter(xs, keep) != [] && Filter(xs, keep)[0] == Filter(xs[..|xs| - 1], keep)[0]
  {
  }

  ghost predicate FirstAndOnly(c: Change, before: seq<HttpEndpoint>, after: seq<HttpEndpoint>) {
    && c.Touched?
    && Filter(after, HasIdentity(IdentityOf(c.after))) == [c.after]
    && Filter(before, HasIdentity(IdentityOf(c.after))) != []
    && Filter(before, HasIdentity(IdentityOf(c.after)))[0] == c.before
  }

  // A touched pair joins the first endpoint of its identity in the old file with
  // the only one in the new file.
  lemma {:induction false} TouchedPairs(before: seq<HttpEndpoint>, after: seq<HttpEndpoint>, c: Change)
    requires c in TouchedIn(before, after)
    ensures FirstAndOnly(c, before, after) && IdentityOf(c.before) == IdentityOf(c.after)
  {
    var found, hit := TouchedStep(before, after);
    if c in found {
      TouchedPairs(before[..|before| - 1], after, c);
      FilterFirst(before, HasIdentity(IdentityOf(c.after)));
    } else {
      TouchedNew(before, after, found, hit.value);
    }
  }

  lemma TouchedNew(before: seq<HttpEndpoint>, after: seq<HttpEndpoint>, found: seq<Change>, partner: HttpEndpoint)
    requires before != [] && found == TouchedIn(before[..|before| - 1], after)
    requires partner in Less(after, Afters(found)) && IdentityOf(partner) == IdentityOf(before[|before| - 1])
    requires Count(Less(after, Afters(found)), HasIdentity(IdentityOf(partner))) == 1
    ensures FirstAndOnly(Touched(before[|before| - 1], partner), before, after)
  {
    var k := IdentityOf(partner);
    TouchedExactly(before[..|before| - 1], after, k);
    TouchedWithin(before[..|before| - 1], after);
    LessFilter(after, Afters(found), HasIdentity(k));
    LeftWasThere(after, Afters(found), partner);
    OnlyOne(after, HasIdentity(k), partner);
    assert Filter(before[..|before| - 1], HasIdentity(k)) == [];
  }

  lemma LeftWasThere(xs: seq<HttpEndpoint>, taken: seq<HttpEndpoint>, x: HttpEndpoint)
    requires x in Less(xs, taken)
    ensures x in xs
  {
    LessBag(xs, taken);
    assert x in multiset(Less(xs, taken));
    assert x in multiset(xs);
  }

  // ---- Which pairs are modified -----------------------------------------------------------------

  // A handler is modified exactly when it has a name and one endpoint of it is
  // left on each side by the first pass; olds is a prefix of the endpoints left.
  lemma {:induction false} ModifiedCount(olds: seq<HttpEndpoint>, before: seq<HttpEndpoint>, after: seq<HttpEndpoint>,
                                         k: PairIdentity)
    requires olds <= before
    ensures Count(Afters(ModifiedIn(olds, before, after)), HasPair(k))
        == Count(Befores(ModifiedIn(olds, before, after)), HasPair(k))
    ensures Count(Afters(ModifiedIn(olds, before, after)), HasPair(k))
         == if k.symbolName.Some? && Count(before, HasPair(k)) == 1 && Count(after, HasPair(k)) == 1
               && Count(olds, HasPair(k)) >= 1
            then 1 else 0
    decreases |olds|
  {
    if olds != [] {
      ModifiedCount(olds[..|olds| - 1], before, after, k);
      ModifiedLeft(olds[..|olds| - 1], before, after, k);
      ModifiedCountStep(olds, before, after, k);
      CountLast(olds, HasPair(k));
    }
  }

  lemma ModifiedCountStep(olds: seq<HttpEndpoint>, before: seq<HttpEndpoint>, after: seq<HttpEndpoint>, k: PairIdentity)
    requires olds != []
    ensures (var e := olds[|olds| - 1];
             var found, all := ModifiedIn(olds[..|olds| - 1], before, after), ModifiedIn(olds, before, after);
             var hit := PairIdentityOf(e) == k && k.symbolName.Some?
                        && Count(Less(before, Befores(found)), HasPair(k)) == 1
                        && Count(Less(after, Afters(found)), HasPair(k)) == 1;
             && Count(Afters(all), HasPair(k)) == Count(Afters(found), HasPair(k)) + (if hit then 1 else 0)
             && Count(Befores(all), HasPair(k)) == Count(Befores(found), HasPair(k)) + (if hit then 1 else 0))
  {
    var found, hit := ModifiedStep(olds, before, after);
    if hit.Some? {
      FoundSnoc(found, Modified(olds[|olds| - 1], hit.value));
      CountSnoc(Afters(found), hit.value, HasPair(k));
      CountSnoc(Befores(found), olds[|olds| - 1], HasPair(k));
    }
  }

  lemma PrefixBag(xs: seq<HttpEndpoint>, ys: seq<HttpEndpoint>)
    requires xs <= ys
    ensures multiset(xs) <= multiset(ys)
  {
    assert ys == xs + ys[|xs|..];
  }

  lemma ModifiedLeft(olds: seq<HttpEndpoint>, before: seq<HttpEndpoint>, after: seq<HttpEndpoint>, k: PairIdentity)
    requires olds <= before
    ensures (var found := ModifiedIn(olds, before, after);
             && Count(Less(before, Befores(found)), HasPair(k))
                 == Count(before, HasPair(k)) - Count(Befores(found), HasPair(k))
             && Count(Less(after, Afters(found)), HasPair(k))
                 == Count(after, HasPair(k)) - Count(Afters(found), HasPair(k)))
  {
    ModifiedWithin(olds, before, after);
    PrefixBag(olds, before);
    LessFilter(before, Befores(ModifiedIn(olds, before, after)), HasPair(k));
    LessFilter(after, Afters(ModifiedIn(olds, before, after)), HasPair(k));
  }

  lemma ModifiedExactly(before: seq<HttpEndpoint>, after: seq<HttpEndpoint>, k: PairIdentity)
    ensures Count(Afters(Modifications(before, after)), HasPair(k))
         == if k.symbolName.Some? && Count(BeforeLeft(before, after), HasPair(k)) == 1
               && Count(AfterLeft(before, after), HasPair(k)) == 1
            then 1 else 0
  {
    ModifiedCount(BeforeLeft(before, after), BeforeLeft(before, after), AfterLeft(before, after), k);
  }

  lemma {:induction false} ModifiedPairs(olds: seq<HttpEndpoint>, before: seq<HttpEndpoint>, after: seq<HttpEndpoint>,
                                         c: Change)
    requires c in ModifiedIn(olds, before, after)
    ensures c.Modified? && PairIdentityOf(c.before) == PairIdentityOf(c.after) && c.before.symbolName.Some?
    decreases |olds|
  {
    var found, hit := ModifiedStep(olds, before, after);
    if c in found {
      ModifiedPairs(olds[..|olds| - 1], before, after, c);
    }
  }

  // ---- Files in which every identity is unique -----------------------------------------------------

  ghost predicate UniqueIdentities(xs: seq<HttpEndpoint>) {
    forall k: Identity :: Count(xs, HasIdentity(k)) <= 1
  }

  ghost predicate Has(xs: seq<HttpEndpoint>, k: Identity) {
    Count(xs, HasIdentity(k)) >= 1
  }

  // With unique identities the touched pairs are the intersection of both files,
  // and no identity is removed and added.
  lemma UniqueIdentitiesMatch(before: seq<HttpEndpoint>, after: seq<HttpEndpoint>, k: Identity)
    requires UniqueIdentities(before) && UniqueIdentities(after)
    ensures Has(Afters(TouchedIn(before, after)), k) <==> Has(before, k) && Has(after, k)
    ensures !(Has(RemovedIn(before, after), k) && Has(AddedIn(before, after), k))
  {
    TouchedExactly(before, after, k);
    assert Count(before, HasIdentity(k)) <= 1 && Count(after, HasIdentity(k)) <= 1;
    PartOf(before, Befores(TouchedIn(before, after)), Befores(Modifications(before, after)),
           RemovedIn(before, after), k) by {
      EndpointsConserved(before, after);
      FileBefores(before, after);
    }
    PartOf(after, Afters(TouchedIn(before, after)), Afters(Modifications(before, after)),
           AddedIn(before, after), k) by {
      EndpointsConserved(before, after);
      FileAfters(before, after);
    }
  }

  lemma PartOf(all: seq<HttpEndpoint>, a: seq<HttpEndpoint>, b: seq<HttpEndpoint>, c: seq<HttpEndpoint>, k: Identity)
    requires multiset(all) == multiset(a + b + c)
    ensures Count(all, HasIdentity(k)) == Count(a, HasIdentity(k)) + Count(b, HasIdentity(k)) + Count(c, HasIdentity(k))
  {
    FilterSameBag(all, a + b + c, HasIdentity(k));
    SameBagSameLength(Filter(all, HasIdentity(k)), Filter(a + b + c, HasIdentity(k)));
    FilterAppend(a + b, c, HasIdentity(k));
    FilterAppend(a, b, HasIdentity(k));
  }
}
