// The stored index (code_graph/cache.py): rows tagged with owner, repository and
// sha, the RepoIndex pointer, and the statements one build commits, one by one.
module IndexStore {
  import opened Lists
  import opened CodeGraph

  datatype RepoKey = RepoKey(ownerId: string, repoId: string)

  // The rows of one (owner, repository, sha). Relationships join symbols of the same bucket.
  datatype Bucket = Bucket(symbols: seq<Symbol>, relations: seq<Edge>, endpoints: seq<HttpEndpoint>)

  const EMPTY := Bucket([], [], [])

  datatype Db = Db(rows: map<(RepoKey, string), Bucket>, pointer: map<RepoKey, string>)

  function At(db: Db, key: RepoKey, sha: string): Bucket {
    if (key, sha) in db.rows then db.rows[(key, sha)] else EMPTY
  }

  function Pointer(db: Db, key: RepoKey): Option<string> {
    if key in db.pointer then Some(db.pointer[key]) else None
  }

  // ---- Statements --------------------------------------------------------------

  datatype Statement =
    | ClearSymbols
    | ClearEndpoints
    | CreateSymbols(symbols: seq<Symbol>)
    | CreateRelations(edges: seq<Edge>)
    | CreateEndpoints(endpoints: seq<HttpEndpoint>)
    | MovePointer
    | DropOldSymbols
    | DropOldEndpoints

  function HasId(id: string): Symbol -> bool {
    (s: Symbol) => s.id == id
  }

  function Matches(symbols: seq<Symbol>, id: string): nat {
    |Filter(symbols, HasId(id))|
  }

  function Copies(e: Edge, n: nat): seq<Edge> {
    seq(n, i => e)
  }

  function Joined(symbols: seq<Symbol>): Edge -> seq<Edge> {
    (e: Edge) => Copies(e, Matches(symbols, e.fromId) * Matches(symbols, e.toId))
  }

  // MATCH (a {id: fromId}), (b {id: toId}) CREATE (a)-[..]->(b): one relationship per matching pair
  function Created(symbols: seq<Symbol>, edges: seq<Edge>): seq<Edge> {
    FlatMap(edges, Joined(symbols))
  }

  // What a statement does to the rows of its own sha.
  function ExecBucket(b: Bucket, st: Statement): Bucket {
    match st
    case ClearSymbols => Bucket([], [], b.endpoints)
    case ClearEndpoints => b.(endpoints := [])
    case CreateSymbols(symbols) => b.(symbols := b.symbols + symbols)
    case CreateRelations(edges) => b.(relations := b.relations + Created(b.symbols, edges))
    case CreateEndpoints(endpoints) => b.(endpoints := b.endpoints + endpoints)
    case _ => b
  }

  function Exec(db: Db, key: RepoKey, sha: string, st: Statement): Db {
    match st
    case MovePointer => db.(pointer := db.pointer[key := sha])
    case DropOldSymbols =>
      db.(rows := map k | k in db.rows ::
        if k.0 == key && k.1 != sha then Bucket([], [], db.rows[k].endpoints) else db.rows[k])
    case DropOldEndpoints =>
      db.(rows := map k | k in db.rows ::
        if k.0 == key && k.1 != sha then db.rows[k].(endpoints := []) else db.rows[k])
    case _ => db.(rows := db.rows[(key, sha) := ExecBucket(At(db, key, sha), st)])
  }

  function ExecAll(db: Db, key: RepoKey, sha: string, sts: seq<Statement>): Db
    decreases |sts|
  {
    if sts == [] then db else ExecAll(Exec(db, key, sha, sts[0]), key, sha, sts[1..])
  }

  function ExecBucketAll(b: Bucket, sts: seq<Statement>): Bucket {
    if sts == [] then b else ExecBucket(ExecBucketAll(b, sts[..|sts| - 1]), sts[|sts| - 1])
  }

  // edges_by_kind: the kinds in order of first appearance
  function KindsOf(edges: seq<Edge>): (kinds: seq<EdgeKind>)
    ensures forall e | e in edges :: e.kind in kinds
    ensures Distinct(kinds)
  {
    if edges == [] then []
    else
      var kinds := KindsOf(edges[..|edges| - 1]);
      var last := edges[|edges| - 1];
      if last.kind in kinds then kinds else kinds + [last.kind]
  }

  function HasKind(kind: EdgeKind): Edge -> bool {
    (e: Edge) => e.kind == kind
  }

  function OfKind(edges: seq<Edge>, kind: EdgeKind): seq<Edge> {
    Filter(edges, HasKind(kind))
  }

  function CreationOf(edges: seq<Edge>): EdgeKind -> seq<Statement> {
    (kind: EdgeKind) => [CreateRelations(OfKind(edges, kind))]
  }

  function RelationStatements(edges: seq<Edge>, kinds: seq<EdgeKind>): seq<Statement> {
    FlatMap(kinds, CreationOf(edges))
  }

  function WriteStatements(g: Graph): seq<Statement> {
    (if g.nodes == [] then [] else [CreateSymbols(g.nodes)])
    + RelationStatements(g.edges, KindsOf(g.edges))
    + (if g.endpoints == [] then [] else [CreateEndpoints(g.endpoints)])
  }

  // Clear the target, write it, move the pointer, and only then drop the other shas.
  function Statements(g: Graph): seq<Statement> {
    [ClearSymbols, ClearEndpoints] + WriteStatements(g) + [MovePointer, DropOldSymbols, DropOldEndpoints]
  }

  // Position of MovePointer.
  function Turn(g: Graph): nat {
    2 + |WriteStatements(g)|
  }

  // The rows of an undisturbed, finished write.
  function Complete(g: Graph): Bucket {
    ExecBucketAll(EMPTY, WriteStatements(g))
  }

  // The rows after the first n statements.
  function Written(g: Graph, n: nat): Bucket {
    ExecBucketAll(EMPTY, WriteStatements(g)[..if n < 2 then 0 else if n > Turn(g) then |WriteStatements(g)| else n - 2])
  }

  // ---- The cache object ---------------------------------------------------------

  class IndexCache {
    var db: Db
    var locks: set<RepoKey>

    constructor ()
      ensures db == Db(map[], map[]) && locks == {}
    {
      db, locks := Db(map[], map[]), {};
    }

    // Runs the statements in order; each is committed on its own.
    method BuildAndStore(key: RepoKey, sha: string, graph: Graph)
      modifies this`db
      ensures db == ExecAll(old(db), key, sha, Statements(graph))
    {
      var sts := Statements(graph);
      for i := 0 to |sts|
        invariant ExecAll(db, key, sha, sts[i..]) == ExecAll(old(db), key, sha, sts)
      {
        assert sts[i..][1..] == sts[i + 1..];
        db := Exec(db, key, sha, sts[i]);
      }
    }

    method GetLatestSha(key: RepoKey) returns (sha: Option<string>)
      ensures sha == Pointer(db, key)
    {
      sha := if key in db.pointer then Some(db.pointer[key]) else None;
    }

    // SET NX: taken only when the key is free
    method AcquireLock(key: RepoKey) returns (acquired: bool)
      modifies this`locks
      ensures acquired <==> key !in old(locks)
      ensures locks == old(locks) + {key}
    {
      acquired := key !in locks;
      locks := locks + {key};
    }

    // DEL: whoever holds the lock
    method ReleaseLock(key: RepoKey)
      modifies this`locks
      ensures locks == old(locks) - {key}
    {
      locks := locks - {key};
    }

    method LookUp(key: RepoKey, sha: string) returns (found: Option<Graph>)
      ensures Reads(At(db, key, sha), found)
    {
      var b := At(db, key, sha);
      if b.symbols == [] {
        return None;
      }
      var nodes: seq<Symbol> := [];
      for i := 0 to |b.symbols|
        invariant PutAll(nodes, b.symbols[i..]) == PutAll([], b.symbols)
      {
        assert b.symbols[i..][1..] == b.symbols[i + 1..];
        nodes := Put(nodes, b.symbols[i]);
      }
      found := Some(Graph(nodes, b.relations, b.endpoints));
    }
  }

  // What a look-up of undisturbed rows may return: the database orders them freely,
  // and the rows land in a dictionary by id.
  ghost predicate Reads(b: Bucket, r: Option<Graph>) {
    if b.symbols == [] then r.None?
    else
      && r.Some?
      && (exists rows :: multiset(rows) == multiset(b.symbols) && r.value.nodes == PutAll([], rows))
      && multiset(r.value.edges) == multiset(b.relations)
      && multiset(r.value.endpoints) == multiset(b.endpoints)
  }

  // ---- What one statement, and a run of statements, does ---------------------------

  predicate IsLocal(st: Statement) {
    st != MovePointer && st != DropOldSymbols && st != DropOldEndpoints
  }

  lemma ExecAt(db: Db, key: RepoKey, sha: string, st: Statement, k: RepoKey, s: string)
    ensures At(Exec(db, key, sha, st), k, s)
         == if k == key && s == sha then ExecBucket(At(db, k, s), st)
            else if k == key && st == DropOldSymbols then Bucket([], [], At(db, k, s).endpoints)
            else if k == key && st == DropOldEndpoints then At(db, k, s).(endpoints := [])
            else At(db, k, s)
    ensures Pointer(Exec(db, key, sha, st), k) == if k == key && st == MovePointer then Some(sha) else Pointer(db, k)
  {
  }

  lemma {:induction false} ExecBucketAppend(b: Bucket, xs: seq<Statement>, ys: seq<Statement>)
    ensures ExecBucketAll(b, xs + ys) == ExecBucketAll(ExecBucketAll(b, xs), ys)
  {
    if ys == [] {
      assert xs + ys == xs;
    } else {
      assert (xs + ys)[..|xs + ys| - 1] == xs + ys[..|ys| - 1];
      ExecBucketAppend(b, xs, ys[..|ys| - 1]);
    }
  }

  lemma {:induction false} ExecAllAppend(db: Db, key: RepoKey, sha: string, xs: seq<Statement>, ys: seq<Statement>)
    ensures ExecAll(db, key, sha, xs + ys) == ExecAll(ExecAll(db, key, sha, xs), key, sha, ys)
    decreases |xs|
  {
    if xs == [] {
      assert xs + ys == ys;
    } else {
      assert (xs + ys)[1..] == xs[1..] + ys;
      ExecAllAppend(Exec(db, key, sha, xs[0]), key, sha, xs[1..], ys);
    }
  }

  // Statements that neither move the pointer nor drop anything touch one bucket only.
  lemma {:induction false} ExecAllLocal(db: Db, key: RepoKey, sha: string, sts: seq<Statement>)
    requires forall i | 0 <= i < |sts| :: IsLocal(sts[i])
    ensures At(ExecAll(db, key, sha, sts), key, sha) == ExecBucketAll(At(db, key, sha), sts)
    ensures ExecAll(db, key, sha, sts).pointer == db.pointer
    ensures forall k, s | (k, s) != (key, sha) :: At(ExecAll(db, key, sha, sts), k, s) == At(db, k, s)
    decreases |sts|
  {
    if sts != [] {
      var next := Exec(db, key, sha, sts[0]);
      assert IsLocal(sts[0]);
      ExecAllLocal(next, key, sha, sts[1..]);
      assert sts == [sts[0]] + sts[1..];
      ExecBucketAppend(At(db, key, sha), [sts[0]], sts[1..]);
      assert [sts[0]][..0] == [];
      assert ExecBucketAll(At(db, key, sha), [sts[0]]) == ExecBucket(At(db, key, sha), sts[0]);
      forall k, s | (k, s) != (key, sha)
        ensures At(ExecAll(db, key, sha, sts), k, s) == At(db, k, s)
      {
        ExecAt(db, key, sha, sts[0], k, s);
      }
    }
  }

  lemma OnlyCreations(edges: seq<Edge>, kinds: seq<EdgeKind>)
    ensures forall st | st in RelationStatements(edges, kinds) ::
        st.CreateRelations? && exists kind :: kind in kinds && st.edges == OfKind(edges, kind)
  {
    forall st | st in RelationStatements(edges, kinds)
      ensures st.CreateRelations? && exists kind :: kind in kinds && st.edges == OfKind(edges, kind)
    {
      FlatMapMember(kinds, CreationOf(edges), st);
    }
  }

  lemma WritesAreLocal(g: Graph)
    ensures forall st | st in WriteStatements(g) :: IsLocal(st)
  {
    OnlyCreations(g.edges, KindsOf(g.edges));
  }

  lemma WriteStatementsLocal(g: Graph)
    ensures forall i | 0 <= i < |WriteStatements(g)| :: IsLocal(WriteStatements(g)[i])
  {
    WritesAreLocal(g);
    var sts := WriteStatements(g);
    forall i | 0 <= i < |sts| ensures IsLocal(sts[i]) {
      assert sts[i] in sts;
    }
  }

  // ---- What a complete write leaves ---------------------------------------------------

  lemma {:induction false} NoMatches(nodes: seq<Symbol>, id: string)
    requires forall s | s in nodes :: s.id != id
    ensures Filter(nodes, HasId(id)) == []
  {
    if nodes != [] {
      NoMatches(nodes[..|nodes| - 1], id);
    }
  }

  lemma {:induction false} OneMatch(nodes: seq<Symbol>, id: string)
    requires DistinctIds(nodes) && exists s :: s in nodes && s.id == id
    ensures Matches(nodes, id) == 1
  {
    var init, last := nodes[..|nodes| - 1], nodes[|nodes| - 1];
    InitLast(nodes);
    if last.id == id {
      NoMatches(init, id);
    } else {
      OneMatch(init, id);
    }
  }

  lemma MatchesDistinct(nodes: seq<Symbol>, id: string)
    requires DistinctIds(nodes)
    ensures Matches(nodes, id) == if Find(nodes, id).Some? then 1 else 0
  {
    if Find(nodes, id).Some? {
      OneMatch(nodes, id);
    } else {
      NoMatches(nodes, id);
    }
  }

  // Between symbols with distinct ids an edge is created once or not at all.
  lemma JoinedDistinct(nodes: seq<Symbol>, e: Edge)
    requires DistinctIds(nodes)
    ensures Joined(nodes)(e) == if Closed(nodes, e) then [e] else []
  {
    MatchesDistinct(nodes, e.fromId);
    MatchesDistinct(nodes, e.toId);
    assert Matches(nodes, e.fromId) * Matches(nodes, e.toId) == if Closed(nodes, e) then 1 else 0;
  }

  lemma {:induction false} CreatedCount(nodes: seq<Symbol>, edges: seq<Edge>, e: Edge)
    requires DistinctIds(nodes)
    ensures multiset(Created(nodes, edges))[e] == if Closed(nodes, e) then multiset(edges)[e] else 0
  {
    if edges != [] {
      var init, last := edges[..|edges| - 1], edges[|edges| - 1];
      CreatedCount(nodes, init, e);
      InitLast(edges);
      JoinedDistinct(nodes, last);
      assert Created(nodes, edges) == Created(nodes, init) + if Closed(nodes, last) then [last] else [];
    }
  }

  // How often e is created when the edges of these kinds are written between these symbols.
  function ShareOf(symbols: seq<Symbol>, edges: seq<Edge>, kinds: seq<EdgeKind>, e: Edge): nat {
    if e.kind in kinds && Closed(symbols, e) then multiset(edges)[e] else 0
  }

  lemma ShareSnoc(symbols: seq<Symbol>, edges: seq<Edge>, init: seq<EdgeKind>, kind: EdgeKind, e: Edge)
    requires kind !in init
    ensures ShareOf(symbols, edges, init + [kind], e)
         == ShareOf(symbols, edges, init, e) + ShareOf(symbols, edges, [kind], e)
  {
    assert e.kind in init + [kind] <==> e.kind in init || e.kind == kind;
  }

  // A write that has created n relationships like e and nothing but relationships.
  ghost predicate HasCreated(b: Bucket, after: Bucket, e: Edge, n: nat) {
    && after.symbols == b.symbols && after.endpoints == b.endpoints
    && multiset(after.relations)[e] == multiset(b.relations)[e] + n
  }

  lemma CreatesMore(b: Bucket, mid: Bucket, of: seq<Edge>, e: Edge, n: nat, more: nat)
    requires HasCreated(b, mid, e, n) && multiset(Created(b.symbols, of))[e] == more
    ensures HasCreated(b, ExecBucket(mid, CreateRelations(of)), e, n + more)
  {
    var created := Created(b.symbols, of);
    assert multiset(mid.relations + created)[e] == multiset(mid.relations)[e] + multiset(created)[e];
  }

  lemma CreatedOfKind(symbols: seq<Symbol>, edges: seq<Edge>, kind: EdgeKind, e: Edge)
    requires DistinctIds(symbols)
    ensures multiset(Created(symbols, OfKind(edges, kind)))[e] == ShareOf(symbols, edges, [kind], e)
  {
    CreatedCount(symbols, OfKind(edges, kind), e);
    FilterCount(edges, HasKind(kind), e);
  }

  lemma RunKind(b: Bucket, edges: seq<Edge>, init: seq<EdgeKind>, kind: EdgeKind)
    ensures ExecBucketAll(b, RelationStatements(edges, init + [kind]))
         == ExecBucket(ExecBucketAll(b, RelationStatements(edges, init)), CreateRelations(OfKind(edges, kind)))
  {
    var st := CreateRelations(OfKind(edges, kind));
    FlatMapSnoc(init, CreationOf(edges), kind);
    ExecBucketAppend(b, RelationStatements(edges, init), [st]);
    OneStatement(ExecBucketAll(b, RelationStatements(edges, init)), st);
  }

  // Writing the edges kind by kind creates each closed edge as often as it is listed.
  lemma {:induction false} RelationsWritten(b: Bucket, edges: seq<Edge>, kinds: seq<EdgeKind>, e: Edge)
    requires DistinctIds(b.symbols) && Distinct(kinds)
    ensures HasCreated(b, ExecBucketAll(b, RelationStatements(edges, kinds)), e, ShareOf(b.symbols, edges, kinds, e))
  {
    if kinds != [] {
      var init, kind := kinds[..|kinds| - 1], kinds[|kinds| - 1];
      InitLast(kinds);
      RelationsWritten(b, edges, init, e);
      RunKind(b, edges, init, kind);
      CreatedOfKind(b.symbols, edges, kind, e);
      CreatesMore(b, ExecBucketAll(b, RelationStatements(edges, init)), OfKind(edges, kind), e,
                  ShareOf(b.symbols, edges, init, e), ShareOf(b.symbols, edges, [kind], e));
      ShareSnoc(b.symbols, edges, init, kind, e);
    }
  }

  // A complete write of a graph holds its nodes, its endpoints and its closed edges.
  lemma WrittenGraph(g: Graph)
    requires DistinctIds(g.nodes)
    ensures var b := Complete(g);
        && b.symbols == g.nodes && b.endpoints == g.endpoints
        && multiset(b.relations) == multiset(StoredEdges(g))
  {
    var first := if g.nodes == [] then [] else [CreateSymbols(g.nodes)];
    var relations := RelationStatements(g.edges, KindsOf(g.edges));
    var last := if g.endpoints == [] then [] else [CreateEndpoints(g.endpoints)];
    ExecBucketAppend(EMPTY, first + relations, last);
    ExecBucketAppend(EMPTY, first, relations);
    SymbolsWritten(g.nodes);
    AllRelationsWritten(ExecBucketAll(EMPTY, first), g);
    EndpointsWritten(ExecBucketAll(ExecBucketAll(EMPTY, first), relations), g.endpoints);
  }

  lemma SymbolsWritten(nodes: seq<Symbol>)
    ensures ExecBucketAll(EMPTY, if nodes == [] then [] else [CreateSymbols(nodes)]) == Bucket(nodes, [], [])
  {
    OneStatement(EMPTY, CreateSymbols(nodes));
  }

  lemma EndpointsWritten(b: Bucket, endpoints: seq<HttpEndpoint>)
    requires b.endpoints == []
    ensures ExecBucketAll(b, if endpoints == [] then [] else [CreateEndpoints(endpoints)]) == b.(endpoints := endpoints)
  {
    OneStatement(b, CreateEndpoints(endpoints));
  }

  lemma AllRelationsWritten(b: Bucket, g: Graph)
    requires b.symbols == g.nodes && b.relations == [] && DistinctIds(g.nodes)
    ensures var after := ExecBucketAll(b, RelationStatements(g.edges, KindsOf(g.edges)));
        && after.symbols == b.symbols && after.endpoints == b.endpoints
        && multiset(after.relations) == multiset(StoredEdges(g))
  {
    var after := ExecBucketAll(b, RelationStatements(g.edges, KindsOf(g.edges)));
    forall e ensures multiset(after.relations)[e] == multiset(StoredEdges(g))[e] {
      RelationsWritten(b, g.edges, KindsOf(g.edges), e);
      FilterCount(g.edges, ClosedAmong(g.nodes), e);
      assert multiset(g.edges)[e] > 0 ==> e in g.edges;
    }
    SameCounts(multiset(after.relations), multiset(StoredEdges(g)));
    RelationsWritten(b, g.edges, KindsOf(g.edges), Edge("", "", Defines));
  }

  lemma OneStatement(b: Bucket, st: Statement)
    ensures ExecBucketAll(b, [st]) == ExecBucket(b, st)
  {
    assert [st][..0] == [];
  }

  // Reading back a complete write.
  lemma WrittenReadsBack(g: Graph, r: Option<Graph>)
    requires DistinctIds(g.nodes) && Reads(Complete(g), r)
    ensures ReadBack(g, r)
  {
    WrittenGraph(g);
    if g.nodes != [] {
      var rows :| multiset(rows) == multiset(g.nodes) && r.value.nodes == PutAll([], rows);
      DistinctIdsBag(g.nodes, rows);
      PutAllDistinct([], rows);
      assert [] + rows == rows;
    }
  }

  lemma DistinctIdsBag(xs: seq<Symbol>, ys: seq<Symbol>)
    requires DistinctIds(xs) && multiset(xs) == multiset(ys)
    ensures DistinctIds(ys)
  {
    SameBagSameLength(xs, ys);
    DistinctSameBag(xs, ys);
    forall i, j | 0 <= i < j < |ys| ensures ys[i].id != ys[j].id {
      assert ys[i] in xs && ys[j] in xs;
    }
  }
}
