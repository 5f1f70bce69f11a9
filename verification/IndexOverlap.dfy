// A second build of the repository inside a first one, as it can happen once the lock of
// the first has expired: what it leaves, and exactly when that is a whole index.
module IndexOverlap {
  import opened Lists
  import opened CodeGraph
  import opened IndexStore
  import opened IndexHazards

  // n statements of build A, all of build B, and the rest of A.
  function Overlapped(db: Db, key: RepoKey, shaA: string, gA: Graph, shaB: string, gB: Graph, n: nat): Db
    requires n <= |Statements(gA)|
  {
    var inner := ExecAll(ExecAll(db, key, shaA, Statements(gA)[..n]), key, shaB, Statements(gB));
    ExecAll(inner, key, shaA, Statements(gA)[n..])
  }

  function LastSha(gA: Graph, shaA: string, shaB: string, n: nat): string {
    if n <= Turn(gA) then shaA else shaB
  }

  // What A still has to write after n statements.
  function Rest(g: Graph, n: nat): seq<Statement>
    requires n <= Turn(g)
  {
    WriteStatements(g)[if n < 2 then 0 else n - 2..]
  }

  // The rows left at the published sha when both builds write the same sha ...
  function LeftAtSame(gA: Graph, gB: Graph, n: nat): Bucket {
    if n == 0 then Complete(gA)
    else if n > Turn(gA) then Complete(gB)
    else ExecBucketAll(if n == 1 then Complete(gB).(endpoints := []) else Complete(gB), Rest(gA, n))
  }

  // ... and when they write different ones.
  function LeftAtOther(gA: Graph, gB: Graph, n: nat): Bucket {
    if n <= Turn(gA) then ExecBucketAll(EMPTY, Rest(gA, n))
    else if n == Turn(gA) + 1 then EMPTY
    else if n == Turn(gA) + 2 then Complete(gB).(endpoints := [])
    else Complete(gB)
  }

  // ---- Running the rest of a build --------------------------------------------------

  function Front(g: Graph): seq<Statement> {
    [ClearSymbols, ClearEndpoints] + WriteStatements(g)
  }

  lemma FrontFrom(g: Graph, n: nat, b: Bucket)
    requires n <= Turn(g)
    ensures Statements(g)[n..] == Front(g)[n..] + TAIL
    ensures forall i | 0 <= i < |Front(g)[n..]| :: IsLocal(Front(g)[n..][i])
  {
    PrefixIsLocal(g);
    assert Statements(g) == Front(g) + TAIL;
  }

  // What the statements of the front from n on make of a bucket.
  lemma FrontRun(g: Graph, n: nat, b: Bucket)
    requires n <= Turn(g)
    ensures ExecBucketAll(b, Front(g)[n..])
         == if n == 0 then Complete(g)
            else ExecBucketAll(if n == 1 then b.(endpoints := []) else b, Rest(g, n))
  {
    FrontDropped(WriteStatements(g), n);
    if n == 0 {
      ClearedBucket(b, WriteStatements(g));
    } else if n == 1 {
      EndpointsCleared(b, WriteStatements(g));
    }
  }

  lemma FrontDropped(ws: seq<Statement>, n: nat)
    requires n <= 2 + |ws|
    ensures ([ClearSymbols, ClearEndpoints] + ws)[n..]
         == if n == 0 then [ClearSymbols, ClearEndpoints] + ws
            else if n == 1 then [ClearEndpoints] + ws else ws[n - 2..]
    ensures ws[0..] == ws
  {
  }

  lemma EndpointsCleared(b: Bucket, sts: seq<Statement>)
    ensures ExecBucketAll(b, [ClearEndpoints] + sts) == ExecBucketAll(b.(endpoints := []), sts)
  {
    ExecBucketAppend(b, [ClearEndpoints], sts);
    OneStatement(b, ClearEndpoints);
  }

  // A build resumed before its turn publishes its own sha and drops every other.
  lemma ResumeBeforeTurn(db: Db, key: RepoKey, sha: string, g: Graph, n: nat)
    requires n <= Turn(g)
    ensures (var after := ExecAll(db, key, sha, Statements(g)[n..]);
             && Pointer(after, key) == Some(sha)
             && At(after, key, sha) == ExecBucketAll(At(db, key, sha), Front(g)[n..])
             && forall other | other != sha :: At(after, key, other) == EMPTY)
  {
    var front := Front(g)[n..];
    FrontFrom(g, n, EMPTY);
    ExecAllAppend(db, key, sha, front, TAIL);
    ExecAllLocal(db, key, sha, front);
    RunTail(ExecAll(db, key, sha, front), key, sha);
  }

  function DroppedBy(rows: Bucket, k: nat): Bucket {
    if k == 1 then EMPTY else if k == 2 then rows.(endpoints := []) else rows
  }

  lemma RunDrops(db: Db, key: RepoKey, sha: string, k: nat)
    requires 1 <= k <= 3
    ensures (var after := ExecAll(db, key, sha, TAIL[k..]);
             && Pointer(after, key) == Pointer(db, key) && At(after, key, sha) == At(db, key, sha)
             && forall other | other != sha :: At(after, key, other) == DroppedBy(At(db, key, other), k))
  {
    var sts := TAIL[k..];
    var mid := Exec(db, key, sha, DropOldSymbols);
    forall s
      ensures At(ExecAll(db, key, sha, sts), key, s)
           == if s == sha then At(db, key, s) else DroppedBy(At(db, key, s), k)
    {
      ExecAt(db, key, sha, DropOldSymbols, key, s);
      ExecAt(db, key, sha, DropOldEndpoints, key, s);
      ExecAt(mid, key, sha, DropOldEndpoints, key, s);
      TailFrom(db, key, sha, k);
    }
    TailFrom(db, key, sha, k);
  }

  lemma TailFrom(db: Db, key: RepoKey, sha: string, k: nat)
    requires 1 <= k <= 3
    ensures ExecAll(db, key, sha, TAIL[k..])
         == if k == 1 then Exec(Exec(db, key, sha, DropOldSymbols), key, sha, DropOldEndpoints)
            else if k == 2 then Exec(db, key, sha, DropOldEndpoints) else db
  {
    assert TAIL[1..] == [DropOldSymbols, DropOldEndpoints] && TAIL[2..] == [DropOldEndpoints] && TAIL[3..] == [];
    assert [DropOldSymbols, DropOldEndpoints][1..] == [DropOldEndpoints] && [DropOldEndpoints][1..] == [];
  }

  // A build resumed after its turn leaves the pointer and goes on dropping.
  lemma ResumeAfterTurn(db: Db, key: RepoKey, sha: string, g: Graph, n: nat)
    requires Turn(g) < n <= |Statements(g)|
    ensures (var after := ExecAll(db, key, sha, Statements(g)[n..]);
             && Pointer(after, key) == Pointer(db, key) && At(after, key, sha) == At(db, key, sha)
             && forall other | other != sha :: At(after, key, other) == DroppedBy(At(db, key, other), n - Turn(g)))
  {
    assert Statements(g) == Front(g) + TAIL;
    assert Statements(g)[n..] == TAIL[n - Turn(g)..];
    RunDrops(db, key, sha, n - Turn(g));
  }

  // ---- What an overlap leaves ----------------------------------------------------------

  // Wherever B comes in: the pointer, the rows behind it, and nothing at any other sha.
  lemma OverlapOutcome(db: Db, key: RepoKey, shaA: string, gA: Graph, shaB: string, gB: Graph, n: nat)
    requires n <= |Statements(gA)|
    ensures (var after, sha := Overlapped(db, key, shaA, gA, shaB, gB, n), LastSha(gA, shaA, shaB, n);
             && Pointer(after, key) == Some(sha)
             && At(after, key, sha) == (if shaA == shaB then LeftAtSame(gA, gB, n) else LeftAtOther(gA, gB, n))
             && forall other | other != sha :: At(after, key, other) == EMPTY)
  {
    var before := ExecAll(db, key, shaA, Statements(gA)[..n]);
    var inner := ExecAll(before, key, shaB, Statements(gB));
    BuildAlone(before, key, shaB, gB);
    if n <= Turn(gA) {
      ResumeBeforeTurn(inner, key, shaA, gA, n);
      FrontRun(gA, n, At(inner, key, shaA));
    } else {
      ResumeAfterTurn(inner, key, shaA, gA, n);
    }
    if shaA != shaB && n == 0 {
      assert Rest(gA, 0) == WriteStatements(gA);
    }
  }

  // ---- Statements that create ---------------------------------------------------------

  predicate Creates(st: Statement) {
    st.CreateSymbols? || st.CreateRelations? || st.CreateEndpoints?
  }

  lemma WritesCreate(g: Graph)
    ensures forall st | st in WriteStatements(g) :: Creates(st)
  {
    OnlyCreations(g.edges, KindsOf(g.edges));
  }

  lemma SuffixCancels<T>(xs: seq<T>, ys: seq<T>, zs: seq<T>)
    requires xs + zs == ys + zs
    ensures xs == ys
  {
    assert |xs| == |ys|;
    assert xs == (xs + zs)[..|xs|] && ys == (ys + zs)[..|ys|];
  }

  lemma StepInjective(a: Bucket, b: Bucket, st: Statement)
    requires Creates(st) && ExecBucket(a, st) == ExecBucket(b, st)
    ensures a == b
  {
    match st {
      case CreateSymbols(symbols) => SuffixCancels(a.symbols, b.symbols, symbols);
      case CreateRelations(edges) => SuffixCancels(a.relations, b.relations, Created(b.symbols, edges));
      case CreateEndpoints(endpoints) => SuffixCancels(a.endpoints, b.endpoints, endpoints);
    }
  }

  // What was there before can be told from what is there afterwards.
  lemma {:induction false} RunInjective(a: Bucket, b: Bucket, sts: seq<Statement>)
    requires (forall st | st in sts :: Creates(st)) && ExecBucketAll(a, sts) == ExecBucketAll(b, sts)
    ensures a == b
  {
    if sts != [] {
      var init, last := sts[..|sts| - 1], sts[|sts| - 1];
      StepInjective(ExecBucketAll(a, init), ExecBucketAll(b, init), last);
      RunInjective(a, b, init);
    }
  }

  ghost predicate Grown(a: Bucket, b: Bucket) {
    a.symbols <= b.symbols && a.relations <= b.relations && a.endpoints <= b.endpoints
  }

  lemma {:induction false} RunGrows(b: Bucket, sts: seq<Statement>)
    requires forall st | st in sts :: Creates(st)
    ensures Grown(b, ExecBucketAll(b, sts))
  {
    if sts != [] {
      var init, last := sts[..|sts| - 1], sts[|sts| - 1];
      RunGrows(b, init);
      assert Creates(last);
    }
  }

  // A statement with nothing to create, given the symbols that are there.
  predicate Idle(symbols: seq<Symbol>, st: Statement) {
    match st
    case CreateSymbols(added) => added == []
    case CreateRelations(edges) => NoneClosed(symbols, edges)
    case CreateEndpoints(added) => added == []
    case _ => false
  }

  predicate NoneClosed(symbols: seq<Symbol>, edges: seq<Edge>) {
    forall e | e in edges :: !Closed(symbols, e)
  }

  lemma MatchesAny(symbols: seq<Symbol>, id: string)
    ensures Matches(symbols, id) > 0 <==> Find(symbols, id).Some?
  {
    if Find(symbols, id).Some? {
      FilterMember(symbols, HasId(id), Find(symbols, id).value);
    } else {
      NoMatches(symbols, id);
    }
  }

  lemma JoinedAny(symbols: seq<Symbol>, e: Edge)
    ensures e in Joined(symbols)(e) <==> Closed(symbols, e)
    ensures forall d | d in Joined(symbols)(e) :: d == e
  {
    MatchesAny(symbols, e.fromId);
    MatchesAny(symbols, e.toId);
    var n := Matches(symbols, e.fromId) * Matches(symbols, e.toId);
    ProductPositive(Matches(symbols, e.fromId), Matches(symbols, e.toId));
    assert Joined(symbols)(e) == Copies(e, n);
    if n > 0 {
      assert Copies(e, n)[0] == e;
    }
  }

  lemma ProductPositive(p: nat, q: nat)
    ensures p * q > 0 <==> p > 0 && q > 0
  {
  }

  lemma NothingCreated(symbols: seq<Symbol>, edges: seq<Edge>)
    ensures Created(symbols, edges) == [] <==> NoneClosed(symbols, edges)
  {
    if Created(symbols, edges) != [] {
      var e := Created(symbols, edges)[0];
      FlatMapMember(edges, Joined(symbols), e);
      var d :| d in edges && e in Joined(symbols)(d);
      JoinedAny(symbols, d);
    } else {
      forall e | e in edges ensures !Closed(symbols, e) {
        JoinedAny(symbols, e);
        FlatMapMember(edges, Joined(symbols), e);
      }
    }
  }

  lemma StepIdle(b: Bucket, st: Statement)
    requires Creates(st)
    ensures ExecBucket(b, st) == b <==> Idle(b.symbols, st)
  {
    match st {
      case CreateSymbols(added) => AppendNothing(b.symbols, added);
      case CreateRelations(edges) =>
        NothingCreated(b.symbols, edges);
        AppendNothing(b.relations, Created(b.symbols, edges));
      case CreateEndpoints(added) => AppendNothing(b.endpoints, added);
    }
  }

  lemma AppendNothing<T>(xs: seq<T>, ys: seq<T>)
    ensures xs + ys == xs <==> ys == []
  {
    if xs + ys == xs {
      assert |xs + ys| == |xs| + |ys|;
    } else {
      assert ys == [] ==> xs + ys == xs;
    }
  }

  // A run of creating statements changes nothing exactly when each has nothing to create.
  lemma {:induction false} RunIdle(b: Bucket, sts: seq<Statement>)
    requires forall st | st in sts :: Creates(st)
    ensures ExecBucketAll(b, sts) == b <==> forall st | st in sts :: Idle(b.symbols, st)
  {
    if sts != [] {
      var init, last := sts[..|sts| - 1], sts[|sts| - 1];
      InitLast(sts);
      RunIdle(b, init);
      RunGrows(b, init);
      RunGrows(ExecBucketAll(b, init), [last]);
      OneStatement(ExecBucketAll(b, init), last);
      StepIdle(b, last);
      assert forall st :: st in sts <==> st in init || st == last;
    }
  }

  // ---- Complete writes ------------------------------------------------------------------

  lemma {:induction false} RelationsOnly(b: Bucket, sts: seq<Statement>)
    requires forall st | st in sts :: st.CreateRelations?
    ensures ExecBucketAll(b, sts).symbols == b.symbols && ExecBucketAll(b, sts).endpoints == b.endpoints
  {
    if sts != [] {
      RelationsOnly(b, sts[..|sts| - 1]);
      assert sts[|sts| - 1].CreateRelations?;
    }
  }

  lemma CompleteRows(g: Graph)
    ensures Complete(g).symbols == g.nodes && Complete(g).endpoints == g.endpoints
  {
    var first := if g.nodes == [] then [] else [CreateSymbols(g.nodes)];
    var relations := RelationStatements(g.edges, KindsOf(g.edges));
    var last := if g.endpoints == [] then [] else [CreateEndpoints(g.endpoints)];
    ExecBucketAppend(EMPTY, first + relations, last);
    ExecBucketAppend(EMPTY, first, relations);
    SymbolsWritten(g.nodes);
    OnlyCreations(g.edges, KindsOf(g.edges));
    RelationsOnly(ExecBucketAll(EMPTY, first), relations);
    EndpointsWritten(ExecBucketAll(ExecBucketAll(EMPTY, first), relations), g.endpoints);
  }

  lemma NoneClosedInNothing(edges: seq<Edge>)
    ensures NoneClosed([], edges)
  {
  }

  // Where there is no symbol, no relationship is created.
  lemma RelationsNeedSymbols(g: Graph)
    requires g.nodes == []
    ensures Complete(g) == Bucket([], [], g.endpoints)
  {
    var relations := RelationStatements(g.edges, KindsOf(g.edges));
    var last := if g.endpoints == [] then [] else [CreateEndpoints(g.endpoints)];
    assert WriteStatements(g) == relations + last;
    OnlyCreations(g.edges, KindsOf(g.edges));
    forall st | st in relations ensures Idle([], st) {
      NoneClosedInNothing(st.edges);
    }
    RunIdle(EMPTY, relations);
    ExecBucketAppend(EMPTY, relations, last);
    EndpointsWritten(EMPTY, g.endpoints);
  }

  // A complete write leaves no row exactly when there is no symbol and no endpoint.
  lemma CompleteEmpty(g: Graph)
    ensures Complete(g) == EMPTY <==> g.nodes == [] && g.endpoints == []
    ensures Complete(g).(endpoints := []) == EMPTY <==> g.nodes == []
  {
    CompleteRows(g);
    if g.nodes == [] {
      RelationsNeedSymbols(g);
    }
  }

  lemma SymbolsFirst(g: Graph)
    requires g.nodes != []
    ensures |WriteStatements(g)| > 0 && WriteStatements(g)[0] == CreateSymbols(g.nodes)
  {
  }

  lemma EndpointsLast(g: Graph)
    ensures g.nodes == []
        ==> forall st | st in WriteStatements(g)[..|WriteStatements(g)| - (if g.endpoints == [] then 0 else 1)] ::
        st.CreateRelations?
    ensures g.endpoints != [] ==>
        |WriteStatements(g)| > 0 && WriteStatements(g)[|WriteStatements(g)| - 1] == CreateEndpoints(g.endpoints)
  {
    var relations := RelationStatements(g.edges, KindsOf(g.edges));
    OnlyCreations(g.edges, KindsOf(g.edges));
    if g.nodes == [] {
      assert WriteStatements(g) == relations + if g.endpoints == [] then [] else [CreateEndpoints(g.endpoints)];
      assert WriteStatements(g)[..|relations|] == relations;
    }
  }

  // Before the turn, nothing has been written exactly when the symbols are still to come,
  // or there are none and no endpoint either, or only endpoints and they are still to come.
  lemma WrittenNothing(g: Graph, n: nat)
    requires 2 <= n <= Turn(g)
    ensures Written(g, n) == EMPTY <==> n == 2 || (g.nodes == [] && (n < Turn(g) || g.endpoints == []))
  {
    var done := WriteStatements(g)[..n - 2];
    WritesCreate(g);
    RunIdle(EMPTY, done);
    if n > 2 {
      EndpointsLast(g);
      if g.nodes != [] {
        SymbolsFirst(g);
        assert done[0] == CreateSymbols(g.nodes) && done[0] in done && !Idle([], done[0]);
      } else if n == Turn(g) && g.endpoints != [] {
        assert done == WriteStatements(g);
        assert done[|done| - 1] in done && !Idle([], done[|done| - 1]);
      } else {
        forall st | st in done ensures Idle([], st) {
          assert st in WriteStatements(g)[..|WriteStatements(g)| - (if g.endpoints == [] then 0 else 1)];
          NoneClosedInNothing(st.edges);
        }
      }
    }
  }

  // ---- Exactly when an overlap is harmless --------------------------------------------------

  // The rows at the published sha are a complete write of a graph built for that sha.
  ghost predicate PublishedIsWhole(db: Db, key: RepoKey, shaA: string, gA: Graph, shaB: string, gB: Graph) {
    || (Pointer(db, key) == Some(shaA) && At(db, key, shaA) == Complete(gA))
    || (Pointer(db, key) == Some(shaB) && At(db, key, shaB) == Complete(gB))
  }

  // Different shas. Before the turn of A: nothing of A is written yet. Behind it, what A
  // goes on to drop from the rows of B is not there.
  predicate HarmlessOther(gA: Graph, gB: Graph, n: nat) {
    if n <= Turn(gA) then n <= 2 || (gA.nodes == [] && (n < Turn(gA) || gA.endpoints == []))
    else if n == Turn(gA) + 1 then gB.nodes == [] && gB.endpoints == []
    else n == Turn(gA) + 2 ==> gB.endpoints == []
  }

  // The same sha. B comes before A clears or behind its turn; or A adds to the rows of B
  // exactly what it lacks: A had written just what B writes, or has nothing to create.
  predicate HarmlessSame(gA: Graph, gB: Graph, n: nat) {
    if n == 0 || n > Turn(gA) then true
    else if n == 1 then
      gB.nodes == [] || (gA.nodes == [] && gA.endpoints == gB.endpoints && NoneClosed(gB.nodes, gA.edges))
    else
      Written(gA, n) == Complete(gB) || forall st | st in Rest(gA, n) :: Idle(gB.nodes, st)
  }

  lemma WrittenThenRest(g: Graph, n: nat)
    requires n <= Turn(g)
    ensures ExecBucketAll(Written(g, n), Rest(g, n)) == Complete(g)
    ensures forall st | st in Rest(g, n) :: Creates(st)
    ensures n < 2 ==> Written(g, n) == EMPTY
  {
    var ws := WriteStatements(g);
    var k := if n < 2 then 0 else n - 2;
    WritesCreate(g);
    assert ws == ws[..k] + ws[k..];
    ExecBucketAppend(EMPTY, ws[..k], ws[k..]);
  }

  // The rest of a build completes exactly the rows that it had written before.
  lemma RestCompletes(b: Bucket, g: Graph, n: nat)
    requires n <= Turn(g)
    ensures ExecBucketAll(b, Rest(g, n)) == Complete(g) <==> b == Written(g, n)
  {
    WrittenThenRest(g, n);
    if ExecBucketAll(b, Rest(g, n)) == Complete(g) {
      RunInjective(b, Written(g, n), Rest(g, n));
    }
  }

  lemma OtherExactly(gA: Graph, gB: Graph, n: nat)
    requires n <= |Statements(gA)|
    ensures LeftAtOther(gA, gB, n) == (if n <= Turn(gA) then Complete(gA) else Complete(gB))
        <==> HarmlessOther(gA, gB, n)
  {
    if n <= Turn(gA) {
      RestCompletes(EMPTY, gA, n);
      if n >= 2 {
        WrittenNothing(gA, n);
      } else {
        WrittenThenRest(gA, n);
      }
    } else {
      CompleteEmpty(gB);
      CompleteRows(gB);
    }
  }

  // All of A on rows that have lost their endpoints.
  lemma AllOnTop(b: Bucket, g: Graph)
    requires b.endpoints == []
    ensures ExecBucketAll(b, WriteStatements(g)).symbols == b.symbols + g.nodes
    ensures ExecBucketAll(b, WriteStatements(g)).endpoints == g.endpoints
    ensures g.nodes == [] ==>
        (ExecBucketAll(b, WriteStatements(g)).relations == b.relations <==> NoneClosed(b.symbols, g.edges))
  {
    var first := if g.nodes == [] then [] else [CreateSymbols(g.nodes)];
    var relations := RelationStatements(g.edges, KindsOf(g.edges));
    var last := if g.endpoints == [] then [] else [CreateEndpoints(g.endpoints)];
    ExecBucketAppend(b, first + relations, last);
    ExecBucketAppend(b, first, relations);
    OneStatement(b, CreateSymbols(g.nodes));
    OnlyCreations(g.edges, KindsOf(g.edges));
    RelationsOnly(ExecBucketAll(b, first), relations);
    EndpointsWritten(ExecBucketAll(ExecBucketAll(b, first), relations), g.endpoints);
    if g.nodes == [] {
      RunIdle(b, relations);
      RelationsIdle(b.symbols, g.edges);
    }
  }

  lemma RelationsIdle(symbols: seq<Symbol>, edges: seq<Edge>)
    ensures (forall st | st in RelationStatements(edges, KindsOf(edges)) :: Idle(symbols, st))
        <==> NoneClosed(symbols, edges)
  {
    var kinds := KindsOf(edges);
    OnlyCreations(edges, kinds);
    if NoneClosed(symbols, edges) {
      forall st | st in RelationStatements(edges, kinds) ensures Idle(symbols, st) {
        forall e | e in st.edges ensures !Closed(symbols, e) {
          var kind :| kind in kinds && st.edges == OfKind(edges, kind);
          FilterMember(edges, HasKind(kind), e);
        }
      }
    } else {
      var e :| e in edges && Closed(symbols, e);
      var st := CreateRelations(OfKind(edges, e.kind));
      FilterMember(edges, HasKind(e.kind), e);
      assert st in CreationOf(edges)(e.kind);
      FlatMapMember(kinds, CreationOf(edges), st);
      assert !Idle(symbols, st);
    }
  }

  // The second statement of A is still to come: it takes the endpoints of B away.
  lemma SameAfterOne(gA: Graph, gB: Graph)
    ensures LeftAtSame(gA, gB, 1) == Complete(gA) || LeftAtSame(gA, gB, 1) == Complete(gB) <==> HarmlessSame(gA, gB, 1)
  {
    var b := Complete(gB).(endpoints := []);
    assert Rest(gA, 1) == WriteStatements(gA);
    RestCompletes(b, gA, 1);
    WrittenThenRest(gA, 1);
    CompleteEmpty(gB);
    CompleteRows(gB);
    AllOnTop(b, gA);
    AppendNothing(gB.nodes, gA.nodes);
  }

  lemma SameLater(gA: Graph, gB: Graph, n: nat)
    requires 2 <= n <= Turn(gA)
    ensures LeftAtSame(gA, gB, n) == Complete(gA) || LeftAtSame(gA, gB, n) == Complete(gB) <==> HarmlessSame(gA, gB, n)
  {
    RestCompletes(Complete(gB), gA, n);
    WrittenThenRest(gA, n);
    CompleteRows(gB);
    RunIdle(Complete(gB), Rest(gA, n));
  }

  // Whichever shas the two builds write, and wherever B comes in: what is published in
  // the end is a whole index if and only if the overlap is harmless.
  lemma OverlapIsHarmless(db: Db, key: RepoKey, shaA: string, gA: Graph, shaB: string, gB: Graph, n: nat)
    requires n <= |Statements(gA)|
    ensures PublishedIsWhole(Overlapped(db, key, shaA, gA, shaB, gB, n), key, shaA, gA, shaB, gB)
       <==> if shaA == shaB then HarmlessSame(gA, gB, n) else HarmlessOther(gA, gB, n)
  {
    OverlapOutcome(db, key, shaA, gA, shaB, gB, n);
    if shaA != shaB {
      OtherExactly(gA, gB, n);
    } else if n == 1 {
      SameAfterOne(gA, gB);
    } else if 2 <= n <= Turn(gA) {
      SameLater(gA, gB, n);
    }
  }

  // For graphs with symbols. A build that resumes after it has written its symbols
  // publishes rows no look-up finds, one that has just moved the pointer erases the
  // graph the other has published, and a retry of the same sha can hold every symbol twice.
  lemma OverlapLosesIndex(db: Db, key: RepoKey, shaA: string, gA: Graph, shaB: string, gB: Graph, n: nat)
    requires n <= |Statements(gA)| && gA.nodes != [] && gB.nodes != []
    ensures (var rows := At(Overlapped(db, key, shaA, gA, shaB, gB, n), key, LastSha(gA, shaA, shaB, n));
             && (Reads(rows, None) <==> shaA != shaB && 2 < n <= Turn(gA) + 1)
             && (shaA == shaB && 1 <= n <= 2 ==> rows.symbols == gB.nodes + gA.nodes))
  {
    OverlapOutcome(db, key, shaA, gA, shaB, gB, n);
    CompleteRows(gA);
    CompleteRows(gB);
    if n <= Turn(gA) && (shaA != shaB || n >= 1) {
      RestSymbols(if shaA == shaB then Complete(gB) else EMPTY, gA, n);
      RestSymbols(Complete(gB).(endpoints := []), gA, n);
    }
  }

  lemma RestSymbols(b: Bucket, g: Graph, n: nat)
    requires g.nodes != [] && n <= Turn(g)
    ensures ExecBucketAll(b, Rest(g, n)).symbols == b.symbols + if n <= 2 then g.nodes else []
  {
    var tail := WriteStatements(g)[1..];
    SymbolsFirst(g);
    TailCreates(g);
    if n <= 2 {
      assert Rest(g, n) == [CreateSymbols(g.nodes)] + tail;
      ExecBucketAppend(b, [CreateSymbols(g.nodes)], tail);
      OneStatement(b, CreateSymbols(g.nodes));
      NoSymbolsCreated(ExecBucket(b, CreateSymbols(g.nodes)), tail);
    } else {
      assert Rest(g, n) == tail[n - 3..];
      NoSymbolsCreated(b, Rest(g, n));
    }
  }

  lemma TailCreates(g: Graph)
    requires g.nodes != []
    ensures forall st | st in WriteStatements(g)[1..] :: st.CreateRelations? || st.CreateEndpoints?
  {
    var relations := RelationStatements(g.edges, KindsOf(g.edges));
    var last := if g.endpoints == [] then [] else [CreateEndpoints(g.endpoints)];
    OnlyCreations(g.edges, KindsOf(g.edges));
    assert WriteStatements(g)[1..] == relations + last;
  }

  lemma {:induction false} NoSymbolsCreated(b: Bucket, sts: seq<Statement>)
    requires forall st | st in sts :: st.CreateRelations? || st.CreateEndpoints?
    ensures ExecBucketAll(b, sts).symbols == b.symbols
  {
    if sts != [] {
      NoSymbolsCreated(b, sts[..|sts| - 1]);
      assert sts[|sts| - 1] in sts;
    }
  }
}
