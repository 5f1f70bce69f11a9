// Fairness of the citations of an answer (chat/agent.py).
module CitationLaws {
  import opened Lists
  import opened ChatLoop
  import opened ChatCitations

  // ---- The valid citations --------------------------------------------------------------

  ghost predicate DistinctCitations(citations: seq<Citation>) {
    forall i, j | 0 <= i < j < |citations| :: KeyOf(citations[i]) != KeyOf(citations[j])
  }

  ghost predicate KeptFrom(kept: seq<Citation>, citations: seq<Citation>, paths: set<(string, string)>,
                           symbols: set<(string, string)>)
  {
    && (forall c | c in kept :: c in citations && Known(c, paths, symbols))
    && (forall c | c in citations && Known(c, paths, symbols) :: KeyOf(c) in Keys(kept))
  }

  lemma DistinctSnoc(kept: seq<Citation>, c: Citation)
    requires DistinctCitations(kept) && KeyOf(c) !in Keys(kept)
    ensures DistinctCitations(kept + [c])
  {
    forall k: nat | k < |kept| ensures KeyOf(kept[k]) != KeyOf(c) {
      assert kept[k] in kept;
    }
  }

  lemma KeptSnoc(kept: seq<Citation>, citations: seq<Citation>, c: Citation, paths: set<(string, string)>,
                 symbols: set<(string, string)>)
    requires KeptFrom(kept, citations, paths, symbols)
    ensures !Known(c, paths, symbols) || KeyOf(c) in Keys(kept) ==> KeptFrom(kept, citations + [c], paths, symbols)
    ensures Known(c, paths, symbols) ==> KeptFrom(kept + [c], citations + [c], paths, symbols)
  {
    GroupedSnoc(kept, c);
    assert forall x :: x in citations + [c] <==> x in citations || x == c;
    assert forall x :: x in kept + [c] <==> x in kept || x == c;
  }

  // Every kept citation is known, no two are the same, and every known one is kept
  // in some copy.
  lemma {:induction false} ValidExact(citations: seq<Citation>, paths: set<(string, string)>,
                                      symbols: set<(string, string)>)
    ensures DistinctCitations(Valid(citations, paths, symbols))
    ensures KeptFrom(Valid(citations, paths, symbols), citations, paths, symbols)
  {
    if citations != [] {
      var init, last := citations[..|citations| - 1], citations[|citations| - 1];
      var kept := Valid(init, paths, symbols);
      ValidExact(init, paths, symbols);
      InitLast(citations);
      KeptSnoc(kept, init, last, paths, symbols);
      if KeyOf(last) !in Keys(kept) {
        DistinctSnoc(kept, last);
      }
    }
  }

  // ---- The groups --------------------------------------------------------------------------

  function OfRepository(repoId: string): Citation -> bool {
    (c: Citation) => c.repoId == repoId
  }

  ghost predicate DistinctGroups(groups: seq<Group>) {
    forall i, j | 0 <= i < j < |groups| :: groups[i].repoId != groups[j].repoId
  }

  // The groups partition a list of citations by repository.
  ghost predicate GroupsOf(groups: seq<Group>, citations: seq<Citation>) {
    && DistinctGroups(groups)
    && (forall i | 0 <= i < |groups| :: groups[i].citations == Filter(citations, OfRepository(groups[i].repoId)))
    && Total(groups) == |citations|
  }

  function Total(groups: seq<Group>): nat {
    if groups == [] then 0 else |groups[0].citations| + Total(groups[1..])
  }

  lemma {:induction false} AddToGroupAt(groups: seq<Group>, c: Citation)
    ensures (var next := AddToGroup(groups, c);
             && |groups| <= |next| <= |groups| + 1
             && (forall i | 0 <= i < |groups| :: next[i].repoId == groups[i].repoId)
             && Total(next) == Total(groups) + 1)
    decreases |groups|
  {
    if groups != [] {
      if groups[0].repoId == c.repoId {
        assert AddToGroup(groups, c)[1..] == groups[1..];
      } else {
        AddToGroupAt(groups[1..], c);
        assert AddToGroup(groups, c)[1..] == AddToGroup(groups[1..], c);
      }
    }
  }

  function CitationsIn(groups: seq<Group>, repoId: string): seq<Citation> {
    if groups == [] then []
    else if groups[0].repoId == repoId then groups[0].citations
    else CitationsIn(groups[1..], repoId)
  }

  lemma {:induction false} AddToGroupCitations(groups: seq<Group>, c: Citation, repoId: string)
    ensures CitationsIn(AddToGroup(groups, c), repoId)
         == CitationsIn(groups, repoId) + if c.repoId == repoId then [c] else []
    decreases |groups|
  {
    if groups != [] && groups[0].repoId != c.repoId {
      AddToGroupCitations(groups[1..], c, repoId);
    }
  }

  lemma PrependDistinct(g: Group, groups: seq<Group>)
    requires DistinctGroups(groups)
    requires forall h | h in groups :: h.repoId != g.repoId
    ensures DistinctGroups([g] + groups)
  {
    forall j: nat | j < |groups| ensures groups[j].repoId != g.repoId {
      assert groups[j] in groups;
    }
  }

  lemma {:induction false} AddToGroupDistinct(groups: seq<Group>, c: Citation)
    requires DistinctGroups(groups)
    ensures DistinctGroups(AddToGroup(groups, c))
    ensures forall g | g in AddToGroup(groups, c) ::
        g.repoId == c.repoId || exists h :: h in groups && h.repoId == g.repoId
    decreases |groups|
  {
    if groups != [] {
      if groups[0].repoId == c.repoId {
        assert forall g | g in groups[1..] :: g in groups;
      } else {
        AddToGroupDistinct(groups[1..], c);
        assert forall g | g in groups[1..] :: g in groups;
        forall g | g in AddToGroup(groups[1..], c) ensures g.repoId != groups[0].repoId {
          if g.repoId != c.repoId {
            var h :| h in groups[1..] && h.repoId == g.repoId;
          }
        }
        PrependDistinct(groups[0], AddToGroup(groups[1..], c));
        assert AddToGroup(groups, c) == [groups[0]] + AddToGroup(groups[1..], c);
      }
    }
  }

  lemma {:induction false} GroupedCitations(citations: seq<Citation>, repoId: string)
    ensures CitationsIn(Grouped(citations), repoId) == Filter(citations, OfRepository(repoId))
    ensures Total(Grouped(citations)) == |citations|
    ensures DistinctGroups(Grouped(citations))
  {
    if citations != [] {
      var init, last := citations[..|citations| - 1], citations[|citations| - 1];
      GroupedCitations(init, repoId);
      AddToGroupCitations(Grouped(init), last, repoId);
      AddToGroupAt(Grouped(init), last);
      AddToGroupDistinct(Grouped(init), last);
    }
  }

  lemma {:induction false} GroupAt(groups: seq<Group>, i: nat)
    requires i < |groups| && DistinctGroups(groups)
    ensures CitationsIn(groups, groups[i].repoId) == groups[i].citations
    decreases |groups|
  {
    if i > 0 {
      GroupAt(groups[1..], i - 1);
    }
  }

  lemma GroupedExact(citations: seq<Citation>)
    ensures GroupsOf(Grouped(citations), citations)
  {
    var groups := Grouped(citations);
    GroupedCitations(citations, "");
    forall i | 0 <= i < |groups| ensures groups[i].citations == Filter(citations, OfRepository(groups[i].repoId)) {
      GroupedCitations(citations, groups[i].repoId);
      GroupAt(groups, i);
    }
  }

  // ---- What each group has given ------------------------------------------------------------

  function Min(a: nat, b: nat): nat {
    if a <= b then a else b
  }

  ghost predicate Belongs(g: Group) {
    forall c | c in g.citations :: c.repoId == g.repoId
  }

  ghost predicate OwnRepository(groups: seq<Group>) {
    && DistinctGroups(groups)
    && (forall i | 0 <= i < |groups| :: Belongs(groups[i]))
  }

  lemma TurnFilter(g: Group, r: nat, repoId: string)
    requires Belongs(g)
    ensures Filter(Turn(g, r), OfRepository(repoId)) == if g.repoId == repoId then Turn(g, r) else []
  {
    if r < |g.citations| {
      assert g.citations[r] in g.citations;
      FilterOne(g.citations[r], OfRepository(repoId));
    }
  }

  function ShareBy(repoId: string): seq<Citation> -> seq<Citation> {
    (citations: seq<Citation>) => Filter(citations, OfRepository(repoId))
  }

  // A share of a list put together is the shares put together.
  ghost predicate Additive(share: seq<Citation> -> seq<Citation>) {
    share([]) == [] && forall a, b :: AdditiveAt(share, a, b)
  }

  ghost predicate AdditiveAt(share: seq<Citation> -> seq<Citation>, a: seq<Citation>, b: seq<Citation>) {
    share(a + b) == share(a) + share(b)
  }

  lemma ShareIsAdditive(repoId: string)
    ensures Additive(ShareBy(repoId))
  {
    forall a: seq<Citation>, b: seq<Citation> ensures AdditiveAt(ShareBy(repoId), a, b) {
      FilterAppend(a, b, OfRepository(repoId));
    }
  }

  // What group j gives to the share of group i: everything to its own, nothing to another.
  ghost predicate TurnShareOf(share: seq<Citation> -> seq<Citation>, groups: seq<Group>, r: nat, j: nat, i: nat)
    requires i < |groups| && j < |groups|
  {
    share(Turn(groups[j], r)) == if i == j then Turn(groups[i], r) else []
  }

  ghost predicate TurnsShared(share: seq<Citation> -> seq<Citation>, groups: seq<Group>, i: nat)
    requires i < |groups|
  {
    forall r: nat, j: nat | j < |groups| :: TurnShareOf(share, groups, r, j, i)
  }

  lemma {:induction false} LayerShare(share: seq<Citation> -> seq<Citation>, groups: seq<Group>, r: nat, k: nat, i: nat)
    requires Additive(share) && k <= |groups| && i < |groups| && TurnsShared(share, groups, i)
    ensures share(Layer(groups, r, k)) == if i < k then Turn(groups[i], r) else []
    decreases k
  {
    if k > 0 {
      LayerShare(share, groups, r, k - 1, i);
      assert TurnShareOf(share, groups, r, k - 1, i);
      assert AdditiveAt(share, Layer(groups, r, k - 1), Turn(groups[k - 1], r));
    }
  }

  lemma {:induction false} RoundsShare(share: seq<Citation> -> seq<Citation>, groups: seq<Group>, r: nat, i: nat)
    requires Additive(share) && i < |groups| && TurnsShared(share, groups, i)
    ensures share(Rounds(groups, r)) == FirstOf(groups[i].citations, r)
    decreases r
  {
    if r > 0 {
      RoundsShare(share, groups, r - 1, i);
      LayerShare(share, groups, r - 1, |groups|, i);
      RoundsStep(share, groups, r, i);
    }
  }

  lemma RoundsStep(share: seq<Citation> -> seq<Citation>, groups: seq<Group>, r: nat, i: nat)
    requires Additive(share) && i < |groups| && r > 0
    requires share(Rounds(groups, r - 1)) == FirstOf(groups[i].citations, r - 1)
    requires share(Layer(groups, r - 1, |groups|)) == Turn(groups[i], r - 1)
    ensures share(Rounds(groups, r)) == FirstOf(groups[i].citations, r)
  {
    OneMore(groups[i], r - 1);
    RoundsSplit(groups, r);
    SharesAdd(share, Rounds(groups, r - 1), Layer(groups, r - 1, |groups|));
  }

  lemma SharesAdd(share: seq<Citation> -> seq<Citation>, a: seq<Citation>, b: seq<Citation>)
    requires Additive(share)
    ensures share(a + b) == share(a) + share(b)
  {
    assert AdditiveAt(share, a, b);
  }

  lemma RoundsSplit(groups: seq<Group>, r: nat)
    requires r > 0
    ensures Rounds(groups, r) == Rounds(groups, r - 1) + Layer(groups, r - 1, |groups|)
  {
  }

  lemma TurnsAreShared(groups: seq<Group>, i: nat)
    requires OwnRepository(groups) && i < |groups|
    ensures TurnsShared(ShareBy(groups[i].repoId), groups, i)
  {
    forall r: nat, j: nat | j < |groups| ensures TurnShareOf(ShareBy(groups[i].repoId), groups, r, j, i) {
      assert groups[j].repoId == groups[i].repoId <==> i == j;
      assert Belongs(groups[j]);
      TurnFilter(groups[j], r, groups[i].repoId);
    }
  }

  function FirstOf(citations: seq<Citation>, r: nat): seq<Citation> {
    citations[..Min(r, |citations|)]
  }

  lemma OneMore(g: Group, r: nat)
    ensures FirstOf(g.citations, r + 1) == FirstOf(g.citations, r) + Turn(g, r)
  {
  }

  lemma TurnShare(groups: seq<Group>, r: nat, k: nat, i: nat)
    requires OwnRepository(groups) && k <= |groups| && i < |groups|
    ensures Filter(Rounds(groups, r) + Layer(groups, r, k), OfRepository(groups[i].repoId))
         == FirstOf(groups[i].citations, if i < k then r + 1 else r)
  {
    var share := ShareBy(groups[i].repoId);
    ShareIsAdditive(groups[i].repoId);
    TurnsAreShared(groups, i);
    TakenShare(share, groups, r, k, i);
  }

  lemma TakenShare(share: seq<Citation> -> seq<Citation>, groups: seq<Group>, r: nat, k: nat, i: nat)
    requires Additive(share) && k <= |groups| && i < |groups| && TurnsShared(share, groups, i)
    ensures share(Rounds(groups, r) + Layer(groups, r, k)) == FirstOf(groups[i].citations, if i < k then r + 1 else r)
  {
    RoundsShare(share, groups, r, i);
    LayerShare(share, groups, r, k, i);
    OneMore(groups[i], r);
    assert AdditiveAt(share, Rounds(groups, r), Layer(groups, r, k));
  }

  // What the first k groups give in r rounds.
  function TotalUpTo(groups: seq<Group>, k: nat, r: nat): nat
    requires k <= |groups|
  {
    if k == 0 then 0 else TotalUpTo(groups, k - 1, r) + Min(r, |groups[k - 1].citations|)
  }

  lemma {:induction false} LayerLength(groups: seq<Group>, r: nat, k: nat)
    requires k <= |groups|
    ensures TotalUpTo(groups, k, r) + |Layer(groups, r, k)| == TotalUpTo(groups, k, r + 1)
    decreases k
  {
    if k > 0 {
      LayerLength(groups, r, k - 1);
    }
  }

  lemma {:induction false} RoundsLength(groups: seq<Group>, r: nat)
    ensures |Rounds(groups, r)| == TotalUpTo(groups, |groups|, r)
    decreases r
  {
    if r == 0 {
      NoneGiven(groups, |groups|);
    } else {
      RoundsLength(groups, r - 1);
      LayerLength(groups, r - 1, |groups|);
    }
  }

  lemma {:induction false} NoneGiven(groups: seq<Group>, k: nat)
    requires k <= |groups|
    ensures TotalUpTo(groups, k, 0) == 0
  {
    if k > 0 {
      NoneGiven(groups, k - 1);
    }
  }

  lemma {:induction false} TotalBound(groups: seq<Group>, k: nat, r: nat)
    requires k <= |groups|
    ensures TotalUpTo(groups, k, r) <= Total(groups[..k])
    ensures Exhausted(groups, r) ==> TotalUpTo(groups, k, r) == Total(groups[..k])
    decreases k
  {
    if k > 0 {
      TotalBound(groups, k - 1, r);
      TotalSnoc(groups[..k - 1], groups[k - 1]);
      assert groups[..k] == groups[..k - 1] + [groups[k - 1]];
    }
  }

  lemma {:induction false} TotalSnoc(groups: seq<Group>, g: Group)
    ensures Total(groups + [g]) == Total(groups) + |g.citations|
  {
    if groups == [] {
      assert [g][1..] == [];
    } else {
      TotalSnoc(groups[1..], g);
      assert (groups + [g])[1..] == groups[1..] + [g];
    }
  }

  lemma {:induction false} PartialLayer(groups: seq<Group>, r: nat, k: nat, n: nat)
    requires k <= n <= |groups|
    ensures |Layer(groups, r, k)| <= |Layer(groups, r, n)|
    decreases n
  {
    if k < n {
      PartialLayer(groups, r, k, n - 1);
    }
  }

  // ---- The theorem ------------------------------------------------------------------------------

  // Of the valid citations as many as fit are taken; each repository contributes
  // a prefix of its own; and one that gets at least two fewer than another has
  // been used up.
  lemma CitationsAreFair(all: seq<Citation>, valid: seq<Citation>, r: nat, k: nat)
    requires TakenInTurn(Grouped(all), valid, r, k)
    ensures |valid| == Min(MAX_CITATIONS, |all|)
    ensures PrefixPerRepository(valid, all)
    ensures forall a: string, b: string | |Filter(valid, OfRepository(a))| + 2 <= |Filter(valid, OfRepository(b))| ::
              Filter(valid, OfRepository(a)) == Filter(all, OfRepository(a))
  {
    GroupedExact(all);
    HowMany(Grouped(all), all, valid, r, k);
    forall repoId: string
      ensures Filter(valid, OfRepository(repoId)) <= Filter(all, OfRepository(repoId))
    {
      ShareOf(all, valid, r, k, repoId);
    }
    forall a: string, b: string | |Filter(valid, OfRepository(a))| + 2 <= |Filter(valid, OfRepository(b))|
      ensures Filter(valid, OfRepository(a)) == Filter(all, OfRepository(a))
    {
      ShareOf(all, valid, r, k, a);
      ShareOf(all, valid, r, k, b);
    }
  }

  // Each repository's citations are the first of those it has.
  ghost predicate PrefixPerRepository(valid: seq<Citation>, all: seq<Citation>) {
    forall repoId: string :: Filter(valid, OfRepository(repoId)) <= Filter(all, OfRepository(repoId))
  }

  lemma PrefixCount(xs: seq<Citation>, ys: seq<Citation>, c: Citation)
    requires xs <= ys
    ensures multiset(xs)[c] <= multiset(ys)[c]
  {
    assert ys == xs + ys[|xs|..];
  }

  lemma TakenCount(valid: seq<Citation>, all: seq<Citation>, c: Citation)
    requires PrefixPerRepository(valid, all)
    ensures multiset(valid)[c] <= multiset(all)[c]
  {
    var own := OfRepository(c.repoId);
    FilterCount(valid, own, c);
    FilterCount(all, own, c);
    PrefixCount(Filter(valid, own), Filter(all, own), c);
  }

  // What is taken is among what there is, and no two of it are the same.
  lemma TakenAreDistinct(valid: seq<Citation>, all: seq<Citation>)
    requires PrefixPerRepository(valid, all) && DistinctCitations(all)
    ensures (forall c | c in valid :: c in all) && DistinctCitations(valid)
  {
    forall c | c in valid ensures c in all {
      TakenCount(valid, all, c);
      assert c in multiset(valid);
    }
    forall i, j | 0 <= i < j < |valid| ensures KeyOf(valid[i]) != KeyOf(valid[j]) {
      if valid[i] == valid[j] {
        RepeatedCount(valid, i, j);
        TakenCount(valid, all, valid[j]);
        KeysDistinct(all);
        DistinctCount(all, valid[j]);
        assert false;
      }
      OneKeyEach(all, valid[i], valid[j]);
    }
  }

  lemma KeysDistinct(all: seq<Citation>)
    requires DistinctCitations(all)
    ensures Distinct(all)
  {
  }

  lemma OneKeyEach(all: seq<Citation>, a: Citation, b: Citation)
    requires DistinctCitations(all) && a in all && b in all && a != b
    ensures KeyOf(a) != KeyOf(b)
  {
    var i :| 0 <= i < |all| && all[i] == a;
    var j :| 0 <= j < |all| && all[j] == b;
  }

  function KnownKeys(citations: seq<Citation>, paths: set<(string, string)>,
                     symbols: set<(string, string)>): set<CitationKey>
  {
    set c | c in citations && Known(c, paths, symbols) :: KeyOf(c)
  }

  lemma {:induction false} KeysSize(citations: seq<Citation>)
    requires DistinctCitations(citations)
    ensures |Keys(citations)| == |citations|
  {
    if citations == [] {
      assert Keys(citations) == {};
    } else {
      var init, last := citations[..|citations| - 1], citations[|citations| - 1];
      InitLast(citations);
      KeysSize(init);
      LastKeyIsNew(citations);
      OneMoreKey(init, last);
    }
  }

  lemma LastKeyIsNew(citations: seq<Citation>)
    requires DistinctCitations(citations) && citations != []
    ensures KeyOf(citations[|citations| - 1]) !in Keys(citations[..|citations| - 1])
  {
    var init := citations[..|citations| - 1];
    forall c | c in init ensures KeyOf(c) != KeyOf(citations[|citations| - 1]) {
      var k :| 0 <= k < |init| && init[k] == c;
      assert citations[k] == c;
    }
  }

  lemma OneMoreKey(init: seq<Citation>, last: Citation)
    requires KeyOf(last) !in Keys(init)
    ensures |Keys(init + [last])| == |Keys(init)| + 1
  {
    GroupedSnoc(init, last);
  }

  // Some workspace of the repository holds a symbol at this path, and, if the citation
  // names a symbol, one with this id.
  predicate KnownTo(workspaces: seq<Workspace>, c: Citation) {
    && (exists w, s | w in workspaces && s in w.nodes :: w.repoId == c.repoId && s.path == c.path)
    && (c.symbolId.None? || c.symbolId.value == ""
        || exists w, s | w in workspaces && s in w.nodes :: w.repoId == c.repoId && s.id == c.symbolId.value)
  }

  lemma KnownExact(workspaces: seq<Workspace>, c: Citation)
    ensures Known(c, KnownPaths(workspaces), KnownSymbols(workspaces)) <==> KnownTo(workspaces, c)
  {
    assert (c.repoId, c.path) in KnownPaths(workspaces)
      <==> exists w, s | w in workspaces && s in w.nodes :: w.repoId == c.repoId && s.path == c.path;
  }

  // Two citations are the same if they agree in these four.
  predicate SameCitation(a: Citation, b: Citation) {
    a.repoId == b.repoId && a.path == b.path && a.line == b.line && a.symbolId == b.symbolId
  }

  function DifferentOnes(citations: seq<Citation>, workspaces: seq<Workspace>): set<CitationKey> {
    set c | c in citations && KnownTo(workspaces, c) :: CitationKey(c.repoId, c.path, c.line, c.symbolId)
  }

  // The citations of an answer, whatever was collected: distinct, each collected and
  // known to a workspace, and as many as there are different ones, up to twelve.
  lemma AnswerCitations(citations: seq<Citation>, workspaces: seq<Workspace>, valid: seq<Citation>, r: nat, k: nat)
    requires TakenInTurn(Grouped(Valid(citations, KnownPaths(workspaces), KnownSymbols(workspaces))), valid, r, k)
    ensures forall i, j | 0 <= i < j < |valid| :: !SameCitation(valid[i], valid[j])
    ensures forall c | c in valid :: c in citations && KnownTo(workspaces, c)
    ensures (var different := |DifferentOnes(citations, workspaces)|;
             |valid| == if different <= 12 then different else 12)
  {
    var paths, symbols := KnownPaths(workspaces), KnownSymbols(workspaces);
    var all := Valid(citations, paths, symbols);
    ValidExact(citations, paths, symbols);
    CitationsAreFair(all, valid, r, k);
    TakenAreDistinct(valid, all);
    forall i, j | 0 <= i < j < |valid| ensures !SameCitation(valid[i], valid[j]) {
      assert KeyOf(valid[i]) != KeyOf(valid[j]);
    }
    forall c | c in citations ensures Known(c, paths, symbols) <==> KnownTo(workspaces, c) {
      KnownExact(workspaces, c);
    }
    KeysSize(all);
    KeysAreDifferent(citations, workspaces);
  }

  lemma KeysAreDifferent(citations: seq<Citation>, workspaces: seq<Workspace>)
    ensures Keys(Valid(citations, KnownPaths(workspaces), KnownSymbols(workspaces)))
         == DifferentOnes(citations, workspaces)
  {
    var paths, symbols := KnownPaths(workspaces), KnownSymbols(workspaces);
    ValidExact(citations, paths, symbols);
    forall c | c in citations ensures Known(c, paths, symbols) <==> KnownTo(workspaces, c) {
      KnownExact(workspaces, c);
    }
    assert Keys(Valid(citations, paths, symbols)) == KnownKeys(citations, paths, symbols);
  }

  // They are looked at in the order they were collected: one more is kept, at the end, if
  // it is known and no known one before it is the same.
  lemma ValidNext(citations: seq<Citation>, workspaces: seq<Workspace>, c: Citation)
    ensures (var paths, symbols := KnownPaths(workspaces), KnownSymbols(workspaces);
             Valid(citations + [c], paths, symbols)
             == Valid(citations, paths, symbols)
                + if KnownTo(workspaces, c)
                     && forall d | d in citations && KnownTo(workspaces, d) :: !SameCitation(c, d)
                  then [c] else [])
  {
    var paths, symbols := KnownPaths(workspaces), KnownSymbols(workspaces);
    assert (citations + [c])[..|citations|] == citations;
    KnownExact(workspaces, c);
    KeysAreDifferent(citations, workspaces);
    assert KeyOf(c) in DifferentOnes(citations, workspaces)
      <==> exists d :: d in citations && KnownTo(workspaces, d) && SameCitation(c, d);
  }

  // A repository has its turn behind those that were cited before it.
  lemma {:induction false} GroupsInOrder(groups: seq<Group>, c: Citation)
    ensures (var next := AddToGroup(groups, c);
             && (forall i | 0 <= i < |groups| :: i < |next| && next[i].repoId == groups[i].repoId)
             && if exists g :: g in groups && g.repoId == c.repoId then |next| == |groups|
                else next == groups + [Group(c.repoId, [c])])
    decreases |groups|
  {
    if groups != [] && groups[0].repoId != c.repoId {
      GroupsInOrder(groups[1..], c);
      assert forall g :: g in groups <==> g == groups[0] || g in groups[1..];
    }
  }

  lemma HowMany(groups: seq<Group>, all: seq<Citation>, valid: seq<Citation>, r: nat, k: nat)
    requires GroupsOf(groups, all) && TakenInTurn(groups, valid, r, k)
    ensures |valid| == Min(MAX_CITATIONS, |all|)
  {
    AtMostAll(groups, r, k);
    if |valid| < MAX_CITATIONS {
      AllGiven(groups, r);
    }
  }

  lemma AtMostAll(groups: seq<Group>, r: nat, k: nat)
    requires k <= |groups|
    ensures |Rounds(groups, r)| + |Layer(groups, r, k)| <= Total(groups)
  {
    RoundsLength(groups, r + 1);
    PartialLayer(groups, r, k, |groups|);
    TotalBound(groups, |groups|, r + 1);
    assert groups[..|groups|] == groups;
  }

  lemma AllGiven(groups: seq<Group>, r: nat)
    requires Exhausted(groups, r)
    ensures |Rounds(groups, r)| == Total(groups)
  {
    RoundsLength(groups, r);
    TotalBound(groups, |groups|, r);
    assert groups[..|groups|] == groups;
  }

  // A repository has given the first r or r + 1 of its citations, or all of them.
  lemma ShareOf(all: seq<Citation>, valid: seq<Citation>, r: nat, k: nat, repoId: string)
    requires TakenInTurn(Grouped(all), valid, r, k)
    ensures (var own, given := Filter(all, OfRepository(repoId)), Filter(valid, OfRepository(repoId));
             && given <= own
             && |given| <= r + 1 && (|given| >= r || given == own))
  {
    var groups := Grouped(all);
    GroupedExact(all);
    GroupsOwn(groups, all);
    if exists i :: 0 <= i < |groups| && groups[i].repoId == repoId {
      var i: nat :| i < |groups| && groups[i].repoId == repoId;
      TurnShare(groups, r, k, i);
    } else {
      NotGrouped(all, repoId);
      NotTaken(groups, r, k, repoId);
    }
  }

  lemma GroupsOwn(groups: seq<Group>, all: seq<Citation>)
    requires GroupsOf(groups, all)
    ensures OwnRepository(groups)
    ensures forall i, c | 0 <= i < |groups| && c in groups[i].citations :: c in all
  {
    forall i, c | 0 <= i < |groups| && c in groups[i].citations ensures c.repoId == groups[i].repoId && c in all {
      FilterMember(all, OfRepository(groups[i].repoId), c);
    }
  }

  lemma {:induction false} CitationsInNone(groups: seq<Group>, repoId: string)
    requires forall i | 0 <= i < |groups| :: groups[i].repoId != repoId
    ensures CitationsIn(groups, repoId) == []
  {
    if groups != [] {
      CitationsInNone(groups[1..], repoId);
    }
  }

  lemma NotGrouped(all: seq<Citation>, repoId: string)
    requires forall i | 0 <= i < |Grouped(all)| :: Grouped(all)[i].repoId != repoId
    ensures Filter(all, OfRepository(repoId)) == []
  {
    GroupedCitations(all, repoId);
    CitationsInNone(Grouped(all), repoId);
  }

  lemma {:induction false} LayerNone(share: seq<Citation> -> seq<Citation>, groups: seq<Group>, r: nat, k: nat)
    requires Additive(share) && k <= |groups| && NoTurns(share, groups)
    ensures share(Layer(groups, r, k)) == []
    decreases k
  {
    if k > 0 {
      LayerNone(share, groups, r, k - 1);
      assert AdditiveAt(share, Layer(groups, r, k - 1), Turn(groups[k - 1], r));
    }
  }

  // No group gives anything to the share.
  ghost predicate NoTurns(share: seq<Citation> -> seq<Citation>, groups: seq<Group>) {
    forall r: nat, j: nat | j < |groups| :: share(Turn(groups[j], r)) == []
  }

  lemma {:induction false} RoundsNone(share: seq<Citation> -> seq<Citation>, groups: seq<Group>, r: nat)
    requires Additive(share) && NoTurns(share, groups)
    ensures share(Rounds(groups, r)) == []
    decreases r
  {
    if r > 0 {
      RoundsNone(share, groups, r - 1);
      LayerNone(share, groups, r - 1, |groups|);
      assert AdditiveAt(share, Rounds(groups, r - 1), Layer(groups, r - 1, |groups|));
    }
  }

  lemma NotTaken(groups: seq<Group>, r: nat, k: nat, repoId: string)
    requires OwnRepository(groups) && k <= |groups| && forall i | 0 <= i < |groups| :: groups[i].repoId != repoId
    ensures Filter(Rounds(groups, r) + Layer(groups, r, k), OfRepository(repoId)) == []
  {
    var share := ShareBy(repoId);
    ShareIsAdditive(repoId);
    forall q: nat, j: nat | j < |groups| ensures share(Turn(groups[j], q)) == [] {
      assert Belongs(groups[j]);
      TurnFilter(groups[j], q, repoId);
    }
    RoundsNone(share, groups, r);
    LayerNone(share, groups, r, k);
    FilterAppend(Rounds(groups, r), Layer(groups, r, k), OfRepository(repoId));
  }
}
