// Concurrent builds as a state machine: every statement, every query and every
// lock operation is a step of its own, and a builder may crash between any two.
module IndexProtocol {
  import opened Lists
  import opened CodeGraph
  import opened GraphBuild
  import opened Incremental
  import opened IncrementalNodes
  import opened IndexHistory
  import opened IndexStore

  // How far a request has come in build_index (api/routes/index.py).
  datatype Phase =
    | Locked
    | SawPointer(seen: Option<string>)
    | SawSymbols(sha: string, nodes: seq<Symbol>)
    | HasPrevious(previous: Option<Graph>)
    | Writing(graph: Graph, next: nat)
    | Leaving

  datatype Builder = Builder(key: RepoKey, sha: string, files: seq<File>, phase: Phase)

  // Per repository, `published` records the file lists of the builds that moved the
  // pointer, and `graphs` the graph of the last one.
  datatype State = State(
    db: Db, locks: set<RepoKey>, builders: map<nat, Builder>, published: map<RepoKey, seq<seq<File>>>,
    graphs: map<RepoKey, Graph>)

  const INITIAL := State(Db(map[], map[]), {}, map[], map[], map[])

  datatype Action =
    | Acquire(pid: nat, key: RepoKey, sha: string, files: seq<File>)
    | ReadPointer(pid: nat)
    | ReadSymbols(pid: nat, rows: seq<Symbol>)
    | ReadRelations(pid: nat, edges: seq<Edge>)
    | Compute(pid: nat, graph: Graph)
    | Write(pid: nat)
    | Leave(pid: nat)
    | Release(pid: nat)
    | Crash(pid: nat)
    | Expire(key: RepoKey)

  function History(s: State, key: RepoKey): seq<seq<File>> {
    if key in s.published then s.published[key] else []
  }

  // The graph of the last build that moved the pointer.
  function Published(s: State, key: RepoKey): Option<Graph> {
    if key in s.graphs then Some(s.graphs[key]) else None
  }

  function Move(s: State, pid: nat, phase: Phase): State
    requires pid in s.builders
  {
    s.(builders := s.builders[pid := s.builders[pid].(phase := phase)])
  }

  // What the protocol has to know of a build. `computes`: over that previous graph, a
  // build of these files may write this graph. `written`: the last of these builds may
  // have written this graph. `reached`: a look-up after these builds may find this.
  datatype Rules = Rules(
    computes: (Option<Graph>, seq<File>, Graph) -> bool,
    written: (seq<seq<File>>, Graph) -> bool,
    reached: (seq<seq<File>>, Option<Graph>) -> bool)

  ghost predicate Lawful(rules: Rules) {
    && rules.reached([], None)
    && (forall builds, prev, files, g | Extends(rules, builds, prev, files, g) ::
          DistinctIds(g.nodes) && rules.written(builds + [files], g))
    && (forall builds, g, r | rules.written(builds, g) && ReadBack(g, r) :: rules.reached(builds, r))
  }

  ghost predicate Extends(rules: Rules, builds: seq<seq<File>>, prev: Option<Graph>, files: seq<File>, g: Graph) {
    rules.reached(builds, prev) && DistinctPaths(files) && rules.computes(prev, files, g)
  }

  // The rules of the incremental build.
  ghost function IncrementalRules(ix: Indexer): Rules {
    Rules((prev, files, g) => BuiltFrom(ix, prev, files, g),
          (builds, g) => Builds(ix, builds, g),
          (builds, r) => Reaches(ix, builds, r))
  }

  lemma IncrementalIsLawful(ix: Indexer)
    ensures Lawful(IncrementalRules(ix))
  {
    var rules := IncrementalRules(ix);
    forall builds, prev, files, g | Extends(rules, builds, prev, files, g)
      ensures DistinctIds(g.nodes) && rules.written(builds + [files], g)
    {
      BuildExtends(ix, builds, prev, files, g);
    }
    forall builds, g, r | rules.written(builds, g) && ReadBack(g, r) ensures rules.reached(builds, r) {
      BuildsReach(ix, builds, g, r);
    }
  }

  // Three assumptions stand in this relation: a request does not target the published
  // sha, the files of a request have distinct paths, and a lock expires only when no
  // live builder works under it.
  ghost predicate Enabled(rules: Rules, s: State, a: Action) {
    match a
    case Acquire(pid, key, sha, files) =>
      pid !in s.builders && key !in s.locks && Pointer(s.db, key) != Some(sha) && DistinctPaths(files)
    case ReadPointer(pid) => pid in s.builders && s.builders[pid].phase == Locked
    case ReadSymbols(pid, rows) =>
      && pid in s.builders && s.builders[pid].phase.SawPointer?
      && (match s.builders[pid].phase.seen
          case Some(sha) => multiset(rows) == multiset(At(s.db, s.builders[pid].key, sha).symbols)
          case None => rows == [])
    case ReadRelations(pid, edges) =>
      && pid in s.builders && s.builders[pid].phase.SawSymbols?
      && multiset(edges) == multiset(At(s.db, s.builders[pid].key, s.builders[pid].phase.sha).relations)
    case Compute(pid, graph) =>
      && pid in s.builders && s.builders[pid].phase.HasPrevious?
      && rules.computes(s.builders[pid].phase.previous, s.builders[pid].files, graph)
    case Write(pid) => CanWrite(s, pid)
    case Leave(pid) => pid in s.builders && s.builders[pid].phase != Leaving
    case Release(pid) => pid in s.builders && s.builders[pid].phase == Leaving
    case Crash(pid) => pid in s.builders
    case Expire(key) => forall p | p in s.builders :: s.builders[p].key != key
  }

  // The statement builder pid commits next, and the state it leaves.
  predicate CanWrite(s: State, pid: nat) {
    && pid in s.builders && s.builders[pid].phase.Writing?
    && s.builders[pid].phase.next < |Statements(s.builders[pid].phase.graph)|
  }

  function NextStatement(b: Builder): Statement
    requires b.phase.Writing? && b.phase.next < |Statements(b.phase.graph)|
  {
    Statements(b.phase.graph)[b.phase.next]
  }

  function Advanced(b: Builder): Builder
    requires b.phase.Writing?
  {
    b.(phase := Writing(b.phase.graph, b.phase.next + 1))
  }

  function Wrote(s: State, pid: nat): State
    requires CanWrite(s, pid)
  {
    var b := s.builders[pid];
    var t := s.(db := Exec(s.db, b.key, b.sha, NextStatement(b)), builders := s.builders[pid := Advanced(b)]);
    if NextStatement(b) != MovePointer then t
    else t.(published := s.published[b.key := History(s, b.key) + [b.files]],
            graphs := s.graphs[b.key := b.phase.graph])
  }

  function Apply(rules: Rules, s: State, a: Action): State
    requires Enabled(rules, s, a)
  {
    match a
    case Acquire(pid, key, sha, files) =>
      s.(locks := s.locks + {key}, builders := s.builders[pid := Builder(key, sha, files, Locked)])
    case ReadPointer(pid) => Move(s, pid, SawPointer(Pointer(s.db, s.builders[pid].key)))
    case ReadSymbols(pid, rows) =>
      var seen := s.builders[pid].phase.seen;
      if seen.None? || rows == [] then Move(s, pid, HasPrevious(None))
      else Move(s, pid, SawSymbols(seen.value, PutAll([], rows)))
    case ReadRelations(pid, edges) =>
      Move(s, pid, HasPrevious(Some(Graph(s.builders[pid].phase.nodes, edges, []))))
    case Compute(pid, graph) => Move(s, pid, Writing(graph, 0))
    case Write(pid) => Wrote(s, pid)
    case Leave(pid) => Move(s, pid, Leaving)
    case Release(pid) => s.(locks := s.locks - {s.builders[pid].key}, builders := s.builders - {pid})
    case Crash(pid) => s.(builders := s.builders - {pid})
    case Expire(key) => s.(locks := s.locks - {key})
  }

  ghost predicate Reachable(rules: Rules, s: State, actions: seq<Action>)
    decreases |actions|
  {
    if actions == [] then s == INITIAL
    else
      var a := actions[|actions| - 1];
      exists s0 :: Reachable(rules, s0, actions[..|actions| - 1]) && Enabled(rules, s0, a) && s == Apply(rules, s0, a)
  }

  // ---- The invariant ------------------------------------------------------------

  // As `Reads`, without the endpoints, which no build reads back.
  ghost predicate ReadsGraph(b: Bucket, r: Option<Graph>) {
    if b.symbols == [] then r.None?
    else
      && r.Some?
      && (exists rows :: multiset(rows) == multiset(b.symbols) && r.value.nodes == PutAll([], rows))
      && multiset(r.value.edges) == multiset(b.relations)
  }

  // The rows at the published sha are a complete write of the graph of the last build
  // that moved the pointer, and that graph is one the chain of those builds yields.
  ghost predicate PointerOk(rules: Rules, s: State, key: RepoKey) {
    match Pointer(s.db, key)
    case Some(sha) =>
      Published(s, key).Some? && Whole(rules, At(s.db, key, sha), Published(s, key).value, History(s, key))
    case None => History(s, key) == []
  }

  ghost predicate Whole(rules: Rules, rows: Bucket, g: Graph, builds: seq<seq<File>>) {
    rows == Complete(g) && DistinctIds(g.nodes) && rules.written(builds, g)
  }

  // Progress of a writer: up to its turn it fills its own bucket behind the
  // pointer; from then on the pointer is its own.
  ghost predicate WritingOk(rules: Rules, s: State, b: Builder)
    requires b.phase.Writing?
  {
    var g, n := b.phase.graph, b.phase.next;
    && n <= |Statements(g)| && DistinctIds(g.nodes)
    && (n == 1 ==> At(s.db, b.key, b.sha) == Bucket([], [], At(s.db, b.key, b.sha).endpoints))
    && (2 <= n ==> At(s.db, b.key, b.sha) == Written(g, n))
    && (n <= Turn(g) ==> Pointer(s.db, b.key) != Some(b.sha) && rules.written(History(s, b.key) + [b.files], g))
    && (Turn(g) < n ==> Pointer(s.db, b.key) == Some(b.sha) && Published(s, b.key) == Some(g))
    && (Turn(g) + 1 < n ==> OnlyEndpoints(s.db, b.key, b.sha))
    && (Turn(g) + 2 < n ==> OnlyTarget(s.db, b.key, b.sha))
  }

  ghost predicate OnlyEndpoints(db: Db, key: RepoKey, sha: string) {
    forall other | other != sha :: At(db, key, other).symbols == [] && At(db, key, other).relations == []
  }

  // No row of the repository is left at any other sha.
  ghost predicate OnlyTarget(db: Db, key: RepoKey, sha: string) {
    forall other | other != sha :: At(db, key, other) == EMPTY
  }

  ghost predicate BuilderOk(rules: Rules, s: State, b: Builder) {
    && b.key in s.locks && DistinctPaths(b.files)
    && match b.phase
       case Locked => Pointer(s.db, b.key) != Some(b.sha)
       case SawPointer(sha) => sha == Pointer(s.db, b.key) && sha != Some(b.sha)
       case SawSymbols(sha, nodes) =>
         && Pointer(s.db, b.key) == Some(sha) && sha != b.sha
         && At(s.db, b.key, sha).symbols != []
         && exists rows :: multiset(rows) == multiset(At(s.db, b.key, sha).symbols) && nodes == PutAll([], rows)
       case HasPrevious(previous) =>
         Pointer(s.db, b.key) != Some(b.sha) && rules.reached(History(s, b.key), previous)
       case Writing(_, _) => WritingOk(rules, s, b)
       case Leaving => true
  }

  // At most one live builder works on a repository.
  ghost predicate Exclusive(s: State) {
    forall p, q | p in s.builders && q in s.builders && s.builders[p].key == s.builders[q].key :: p == q
  }

  ghost predicate Inv(rules: Rules, s: State) {
    && Exclusive(s)
    && (forall p | p in s.builders :: BuilderOk(rules, s, s.builders[p]))
    && forall key :: PointerOk(rules, s, key)
  }

  // ---- Preservation ----------------------------------------------------------------

  // What the invariant says about one repository depends on that repository alone.
  ghost predicate SameRepo(s: State, t: State, key: RepoKey) {
    && Pointer(s.db, key) == Pointer(t.db, key)
    && History(s, key) == History(t, key) && Published(s, key) == Published(t, key)
    && (key in s.locks ==> key in t.locks)
    && forall sha :: At(s.db, key, sha) == At(t.db, key, sha)
  }

  lemma BuilderFrame(rules: Rules, s: State, t: State, b: Builder)
    requires SameRepo(s, t, b.key) && BuilderOk(rules, s, b)
    ensures BuilderOk(rules, t, b)
  {
  }

  lemma PointerFrame(rules: Rules, s: State, t: State, key: RepoKey)
    requires SameRepo(s, t, key) && PointerOk(rules, s, key)
    ensures PointerOk(rules, t, key)
  {
  }

  // A step of one builder that leaves every other repository alone.
  lemma OwnStep(rules: Rules, s: State, t: State, pid: nat)
    requires Inv(rules, s) && pid in s.builders && pid in t.builders
    requires t.builders.Keys == s.builders.Keys && t.builders[pid].key == s.builders[pid].key
    requires forall p | p in s.builders && p != pid :: t.builders[p] == s.builders[p]
    requires forall key | key != s.builders[pid].key :: SameRepo(s, t, key)
    requires BuilderOk(rules, t, t.builders[pid]) && PointerOk(rules, t, s.builders[pid].key)
    ensures Inv(rules, t)
  {
    var own := s.builders[pid].key;
    forall p | p in t.builders ensures BuilderOk(rules, t, t.builders[p]) {
      if p != pid {
        assert s.builders[p].key != own;
        BuilderFrame(rules, s, t, s.builders[p]);
      }
    }
    forall key ensures PointerOk(rules, t, key) {
      if key != own { PointerFrame(rules, s, t, key); }
    }
    forall p, q | p in t.builders && q in t.builders && t.builders[p].key == t.builders[q].key ensures p == q {
      assert t.builders[p].key == s.builders[p].key && t.builders[q].key == s.builders[q].key;
    }
  }

  ghost predicate SameRecords(s: State, t: State) {
    t.published == s.published && t.graphs == s.graphs
  }

  // A step that only removes builders or frees a lock nobody alive holds.
  lemma RemovalStep(rules: Rules, s: State, t: State)
    requires Inv(rules, s) && t.db == s.db && SameRecords(s, t)
    requires t.builders.Keys <= s.builders.Keys
    requires forall p | p in t.builders :: t.builders[p] == s.builders[p] && s.builders[p].key in t.locks
    ensures Inv(rules, t)
  {
    forall p | p in t.builders ensures BuilderOk(rules, t, t.builders[p]) {
      assert BuilderOk(rules, s, s.builders[p]);
      BuilderKeepsLock(rules, s, t, s.builders[p]);
    }
    forall key ensures PointerOk(rules, t, key) {
      assert PointerOk(rules, s, key);
    }
  }

  lemma BuilderKeepsLock(rules: Rules, s: State, t: State, b: Builder)
    requires BuilderOk(rules, s, b) && t.db == s.db && SameRecords(s, t) && b.key in t.locks
    ensures BuilderOk(rules, t, b)
  {
    assert SameRepo(s, t, b.key);
    BuilderFrame(rules, s, t, b);
  }

  lemma AcquireStep(rules: Rules, s: State, a: Action)
    requires Lawful(rules) && Inv(rules, s) && a.Acquire? && Enabled(rules, s, a)
    ensures Inv(rules, Apply(rules, s, a))
  {
    var t := Apply(rules, s, a);
    forall p | p in s.builders ensures s.builders[p].key != a.key {
      assert BuilderOk(rules, s, s.builders[p]);
    }
    forall p | p in t.builders ensures BuilderOk(rules, t, t.builders[p]) {
      if p != a.pid {
        assert BuilderOk(rules, s, s.builders[p]);
        BuilderKeepsLock(rules, s, t, s.builders[p]);
      }
    }
    forall key ensures PointerOk(rules, t, key) {
      assert PointerOk(rules, s, key);
    }
  }

  lemma MoveSameRepo(s: State, pid: nat, phase: Phase, key: RepoKey)
    requires pid in s.builders
    ensures SameRepo(s, Move(s, pid, phase), key)
  {
  }

  // A step of a builder that only changes its own phase.
  lemma PhaseStep(rules: Rules, s: State, pid: nat, phase: Phase)
    requires Inv(rules, s) && pid in s.builders && BuilderOk(rules, s, s.builders[pid].(phase := phase))
    ensures Inv(rules, Move(s, pid, phase))
  {
    var t := Move(s, pid, phase);
    var b := s.builders[pid].(phase := phase);
    MoveSameRepo(s, pid, phase, b.key);
    BuilderFrame(rules, s, t, b);
    PointerFrame(rules, s, t, b.key);
    OwnStep(rules, s, t, pid);
  }

  // Reading under the lock, query by query, gives what an undisturbed look-up gives.
  lemma ReadPointerStep(rules: Rules, s: State, a: Action)
    requires Lawful(rules) && Inv(rules, s) && a.ReadPointer? && Enabled(rules, s, a)
    ensures Inv(rules, Apply(rules, s, a))
  {
    var b := s.builders[a.pid];
    assert BuilderOk(rules, s, b);
    PhaseStep(rules, s, a.pid, SawPointer(Pointer(s.db, b.key)));
  }

  // Whatever a look-up of whole rows returns is an outcome of that chain of builds.
  lemma WholeReaches(rules: Rules, rows: Bucket, g: Graph, builds: seq<seq<File>>, r: Option<Graph>)
    requires Lawful(rules) && Whole(rules, rows, g, builds) && ReadsGraph(rows, r)
    ensures rules.reached(builds, r) && ReadBack(g, r)
  {
    WrittenGraphReadsBack(g, r);
  }

  lemma NothingThere(rules: Rules, s: State, key: RepoKey)
    requires Lawful(rules) && PointerOk(rules, s, key)
    requires Pointer(s.db, key).Some? ==> At(s.db, key, Pointer(s.db, key).value).symbols == []
    ensures rules.reached(History(s, key), None)
  {
    if Pointer(s.db, key).Some? {
      WholeReaches(rules, At(s.db, key, Pointer(s.db, key).value), Published(s, key).value, History(s, key), None);
    }
  }

  lemma ReadSymbolsStep(rules: Rules, s: State, a: Action)
    requires Lawful(rules) && Inv(rules, s) && a.ReadSymbols? && Enabled(rules, s, a)
    ensures Inv(rules, Apply(rules, s, a))
  {
    var b := s.builders[a.pid];
    assert BuilderOk(rules, s, b) && PointerOk(rules, s, b.key);
    var seen := b.phase.seen;
    if seen.Some? {
      SameBagSameLength(a.rows, At(s.db, b.key, seen.value).symbols);
    }
    if seen.None? || a.rows == [] {
      NothingThere(rules, s, b.key);
      PhaseStep(rules, s, a.pid, HasPrevious(None));
    } else {
      PhaseStep(rules, s, a.pid, SawSymbols(seen.value, PutAll([], a.rows)));
    }
  }

  lemma ReadRelationsStep(rules: Rules, s: State, a: Action)
    requires Lawful(rules) && Inv(rules, s) && a.ReadRelations? && Enabled(rules, s, a)
    ensures Inv(rules, Apply(rules, s, a))
  {
    var b := s.builders[a.pid];
    assert BuilderOk(rules, s, b) && PointerOk(rules, s, b.key);
    var previous := Some(Graph(b.phase.nodes, a.edges, []));
    WholeReaches(rules, At(s.db, b.key, b.phase.sha), Published(s, b.key).value, History(s, b.key), previous);
    PhaseStep(rules, s, a.pid, HasPrevious(previous));
  }

  lemma ComputeStep(rules: Rules, s: State, a: Action)
    requires Lawful(rules) && Inv(rules, s) && a.Compute? && Enabled(rules, s, a)
    ensures Inv(rules, Apply(rules, s, a))
  {
    var b := s.builders[a.pid];
    assert BuilderOk(rules, s, b);
    var g := a.graph;
    assert Extends(rules, History(s, b.key), b.phase.previous, b.files, g);
    PhaseStep(rules, s, a.pid, Writing(g, 0));
  }

  lemma StatementAt(g: Graph, n: nat)
    requires n < |Statements(g)|
    ensures Statements(g)[n]
         == if n == 0 then ClearSymbols else if n == 1 then ClearEndpoints
            else if n < Turn(g) then WriteStatements(g)[n - 2]
            else if n == Turn(g) then MovePointer
            else if n == Turn(g) + 1 then DropOldSymbols else DropOldEndpoints
    ensures n < Turn(g) ==> IsLocal(Statements(g)[n])
    ensures |Statements(g)| == Turn(g) + 3
  {
    WriteStatementsLocal(g);
  }

  lemma WrittenNext(g: Graph, n: nat)
    requires 2 <= n < Turn(g)
    ensures Written(g, n + 1) == ExecBucket(Written(g, n), WriteStatements(g)[n - 2])
  {
    var ws := WriteStatements(g);
    assert ws[..n - 1][..n - 2] == ws[..n - 2];
  }

  // What the bucket of a writer is after its next statement.
  lemma BucketAfter(rules: Rules, s: State, b: Builder)
    requires b.phase.Writing? && WritingOk(rules, s, b) && b.phase.next < Turn(b.phase.graph)
    ensures (var g, n := b.phase.graph, b.phase.next;
             var after := ExecBucket(At(s.db, b.key, b.sha), Statements(g)[n]);
             if n == 0 then after == Bucket([], [], after.endpoints) else after == Written(g, n + 1))
  {
    var g, n := b.phase.graph, b.phase.next;
    StatementAt(g, n);
    if n >= 2 {
      WrittenNext(g, n);
    } else {
      assert Written(g, 2) == EMPTY;
    }
  }

  // The pointer, the rows behind it and the graph they are a write of.
  ghost predicate SamePublished(s: State, t: State, key: RepoKey) {
    && Pointer(t.db, key) == Pointer(s.db, key)
    && History(t, key) == History(s, key) && Published(t, key) == Published(s, key)
    && (Pointer(s.db, key).Some? ==>
          At(t.db, key, Pointer(s.db, key).value) == At(s.db, key, Pointer(s.db, key).value))
  }

  // What a write of builder b leaves to every other repository.
  ghost predicate OthersSame(s: State, t: State, b: Builder) {
    t.locks == s.locks && forall key | key != b.key :: SameRepo(s, t, key)
  }

  // A write behind the pointer changes nothing that is published.
  lemma LocalWrite(s: State, pid: nat)
    requires CanWrite(s, pid)
    requires s.builders[pid].phase.next < Turn(s.builders[pid].phase.graph)
    ensures (var b, t := s.builders[pid], Wrote(s, pid);
             && t.db.pointer == s.db.pointer && SameRecords(s, t) && t.locks == s.locks
             && t.builders == s.builders[pid := Advanced(b)]
             && At(t.db, b.key, b.sha) == ExecBucket(At(s.db, b.key, b.sha), NextStatement(b))
             && forall k, sha | k != b.key || sha != b.sha :: At(t.db, k, sha) == At(s.db, k, sha))
  {
    var b := s.builders[pid];
    var st := NextStatement(b);
    StatementAt(b.phase.graph, b.phase.next);
    forall k, sha ensures k != b.key || sha != b.sha ==> At(Wrote(s, pid).db, k, sha) == At(s.db, k, sha) {
      ExecAt(s.db, b.key, b.sha, st, k, sha);
    }
    ExecAt(s.db, b.key, b.sha, st, b.key, b.sha);
  }

  lemma OthersKeepPointer(s: State, t: State, b: Builder)
    requires Pointer(s.db, b.key) != Some(b.sha)
    requires t.db.pointer == s.db.pointer && SameRecords(s, t) && t.locks == s.locks
    requires forall k, sha | k != b.key || sha != b.sha :: At(t.db, k, sha) == At(s.db, k, sha)
    ensures OthersSame(s, t, b)
    ensures forall key :: SamePublished(s, t, key)
  {
  }

  lemma PublishedFrame(rules: Rules, s: State, t: State, key: RepoKey)
    requires SamePublished(s, t, key) && PointerOk(rules, s, key)
    ensures PointerOk(rules, t, key)
  {
  }

  lemma WriterBehind(rules: Rules, s: State, t: State, b: Builder)
    requires BuilderOk(rules, s, b) && b.phase.Writing? && b.phase.next < Turn(b.phase.graph)
    requires SamePublished(s, t, b.key) && t.locks == s.locks
    requires At(t.db, b.key, b.sha) == ExecBucket(At(s.db, b.key, b.sha), Statements(b.phase.graph)[b.phase.next])
    ensures BuilderOk(rules, t, Advanced(b))
  {
    BucketAfter(rules, s, b);
    StatementAt(b.phase.graph, b.phase.next);
  }

  // A step of a writer, once its own builder and its own repository are fine.
  lemma WriteStep(rules: Rules, s: State, t: State, pid: nat)
    requires Inv(rules, s) && pid in s.builders && s.builders[pid].phase.Writing?
    requires t.builders == s.builders[pid := Advanced(s.builders[pid])] && OthersSame(s, t, s.builders[pid])
    requires BuilderOk(rules, t, Advanced(s.builders[pid])) && PointerOk(rules, t, s.builders[pid].key)
    ensures Inv(rules, t)
  {
    OwnStep(rules, s, t, pid);
  }

  lemma WriteBeforeTurn(rules: Rules, s: State, pid: nat)
    requires Lawful(rules) && Inv(rules, s) && CanWrite(s, pid)
    requires s.builders[pid].phase.next < Turn(s.builders[pid].phase.graph)
    ensures Inv(rules, Wrote(s, pid))
    ensures forall key :: SamePublished(s, Wrote(s, pid), key)
  {
    var b := s.builders[pid];
    var t := Wrote(s, pid);
    assert BuilderOk(rules, s, b) && PointerOk(rules, s, b.key);
    LocalWrite(s, pid);
    OthersKeepPointer(s, t, b);
    WriterBehind(rules, s, t, b);
    PublishedFrame(rules, s, t, b.key);
    WriteStep(rules, s, t, pid);
  }

  lemma WrittenAll(g: Graph)
    ensures Written(g, Turn(g)) == Written(g, Turn(g) + 1) == Complete(g)
  {
    assert WriteStatements(g)[..|WriteStatements(g)|] == WriteStatements(g);
  }

  lemma MovedPointer(s: State, pid: nat)
    requires CanWrite(s, pid)
    requires s.builders[pid].phase.next == Turn(s.builders[pid].phase.graph)
    ensures (var b, t := s.builders[pid], Wrote(s, pid);
             && t.builders == s.builders[pid := Advanced(b)] && OthersSame(s, t, b)
             && Pointer(t.db, b.key) == Some(b.sha) && History(t, b.key) == History(s, b.key) + [b.files]
             && Published(t, b.key) == Some(b.phase.graph)
             && (forall k, sha :: At(t.db, k, sha) == At(s.db, k, sha))
             && b.phase.next < |Statements(b.phase.graph)|)
  {
    var b := s.builders[pid];
    StatementAt(b.phase.graph, b.phase.next);
    forall k, sha ensures At(Wrote(s, pid).db, k, sha) == At(s.db, k, sha) {
      ExecAt(s.db, b.key, b.sha, MovePointer, k, sha);
    }
  }

  lemma WriterTurns(rules: Rules, s: State, t: State, b: Builder)
    requires BuilderOk(rules, s, b) && b.phase.Writing? && b.phase.next == Turn(b.phase.graph) && t.locks == s.locks
    requires Pointer(t.db, b.key) == Some(b.sha) && History(t, b.key) == History(s, b.key) + [b.files]
    requires Published(t, b.key) == Some(b.phase.graph) && At(t.db, b.key, b.sha) == At(s.db, b.key, b.sha)
    ensures BuilderOk(rules, t, Advanced(b)) && PointerOk(rules, t, b.key)
        && At(t.db, b.key, b.sha) == Complete(b.phase.graph)
  {
    StatementAt(b.phase.graph, b.phase.next);
    WrittenAll(b.phase.graph);
  }

  // The turn: the pointer moves to a complete bucket, and no row changes.
  lemma WriteTurn(rules: Rules, s: State, pid: nat)
    requires Lawful(rules) && Inv(rules, s) && CanWrite(s, pid)
    requires s.builders[pid].phase.next == Turn(s.builders[pid].phase.graph)
    ensures Inv(rules, Wrote(s, pid))
    ensures (var b, t := s.builders[pid], Wrote(s, pid);
             && Pointer(t.db, b.key) == Some(b.sha) && At(t.db, b.key, b.sha) == Complete(b.phase.graph)
             && Published(t, b.key) == Some(b.phase.graph) && History(t, b.key) == History(s, b.key) + [b.files]
             && (forall key, sha :: At(t.db, key, sha) == At(s.db, key, sha))
             && forall key | key != b.key :: SamePublished(s, t, key))
  {
    var b := s.builders[pid];
    var t := Wrote(s, pid);
    assert BuilderOk(rules, s, b);
    MovedPointer(s, pid);
    WriterTurns(rules, s, t, b);
    WriteStep(rules, s, t, pid);
  }

  // Rows that hold a graph read back as that graph.
  lemma RowsReadBack(rows: Bucket, g: Graph, r: Option<Graph>)
    requires DistinctIds(g.nodes) && rows.symbols == g.nodes && multiset(rows.relations) == multiset(StoredEdges(g))
    requires ReadsGraph(rows, r)
    ensures ReadBack(g, r)
  {
    if g.nodes != [] {
      var listed :| multiset(listed) == multiset(g.nodes) && r.value.nodes == PutAll([], listed);
      DistinctIdsBag(g.nodes, listed);
      PutAllDistinct([], listed);
      assert [] + listed == listed;
    }
  }

  lemma WrittenGraphReadsBack(g: Graph, r: Option<Graph>)
    requires DistinctIds(g.nodes) && ReadsGraph(Complete(g), r)
    ensures ReadBack(g, r)
  {
    WrittenGraph(g);
    RowsReadBack(Complete(g), g, r);
  }

  // What one of the two last statements does to the rows of the other shas.
  function Dropped(rows: Bucket, st: Statement): Bucket {
    if st == DropOldSymbols then Bucket([], [], rows.endpoints) else rows.(endpoints := [])
  }

  lemma DropWrite(s: State, pid: nat)
    requires CanWrite(s, pid)
    requires s.builders[pid].phase.next > Turn(s.builders[pid].phase.graph)
    ensures (var b, t := s.builders[pid], Wrote(s, pid);
             var st := NextStatement(b);
             && t.db.pointer == s.db.pointer && SameRecords(s, t) && t.locks == s.locks
             && t.builders == s.builders[pid := Advanced(b)]
             && (forall k, sha | k != b.key || sha == b.sha :: At(t.db, k, sha) == At(s.db, k, sha))
             && (forall sha | sha != b.sha :: At(t.db, b.key, sha) == Dropped(At(s.db, b.key, sha), st)))
  {
    var b := s.builders[pid];
    var st := NextStatement(b);
    var t := Wrote(s, pid);
    StatementAt(b.phase.graph, b.phase.next);
    forall k, sha
      ensures At(t.db, k, sha) == if k == b.key && sha != b.sha then Dropped(At(s.db, k, sha), st) else At(s.db, k, sha)
    {
      ExecAt(s.db, b.key, b.sha, st, k, sha);
    }
  }

  lemma WriterDrops(rules: Rules, s: State, t: State, b: Builder)
    requires BuilderOk(rules, s, b) && b.phase.Writing?
        && Turn(b.phase.graph) < b.phase.next < |Statements(b.phase.graph)|
    requires SamePublished(s, t, b.key) && t.locks == s.locks
    requires At(t.db, b.key, b.sha) == At(s.db, b.key, b.sha)
    requires forall sha | sha != b.sha ::
        At(t.db, b.key, sha) == Dropped(At(s.db, b.key, sha), Statements(b.phase.graph)[b.phase.next])
    ensures BuilderOk(rules, t, Advanced(b))
  {
    StatementAt(b.phase.graph, b.phase.next);
  }

  lemma DropsBehind(s: State, t: State, b: Builder)
    requires Pointer(s.db, b.key) == Some(b.sha)
    requires t.db.pointer == s.db.pointer && SameRecords(s, t) && t.locks == s.locks
    requires forall k, sha | k != b.key || sha == b.sha :: At(t.db, k, sha) == At(s.db, k, sha)
    ensures OthersSame(s, t, b)
    ensures forall key :: SamePublished(s, t, key)
  {
  }

  // Dropping old shas never touches a published bucket.
  lemma WriteAfterTurn(rules: Rules, s: State, pid: nat)
    requires Lawful(rules) && Inv(rules, s) && CanWrite(s, pid)
    requires s.builders[pid].phase.next > Turn(s.builders[pid].phase.graph)
    ensures Inv(rules, Wrote(s, pid))
    ensures forall key :: SamePublished(s, Wrote(s, pid), key)
  {
    var b := s.builders[pid];
    var t := Wrote(s, pid);
    assert BuilderOk(rules, s, b) && PointerOk(rules, s, b.key);
    DropWrite(s, pid);
    DropsBehind(s, t, b);
    WriterDrops(rules, s, t, b);
    PublishedFrame(rules, s, t, b.key);
    WriteStep(rules, s, t, pid);
  }

  lemma EndStep(rules: Rules, s: State, a: Action)
    requires Lawful(rules) && Inv(rules, s) && Enabled(rules, s, a) && (a.Release? || a.Crash? || a.Expire?)
    ensures Inv(rules, Apply(rules, s, a))
  {
    forall p | p in s.builders ensures s.builders[p].key in s.locks {
      assert BuilderOk(rules, s, s.builders[p]);
    }
    RemovalStep(rules, s, Apply(rules, s, a));
  }

  lemma LeaveStep(rules: Rules, s: State, a: Action)
    requires Lawful(rules) && Inv(rules, s) && Enabled(rules, s, a) && a.Leave?
    ensures Inv(rules, Apply(rules, s, a))
  {
    assert BuilderOk(rules, s, s.builders[a.pid]);
    PhaseStep(rules, s, a.pid, Leaving);
  }

  lemma WroteKeepsInv(rules: Rules, s: State, pid: nat)
    requires Lawful(rules) && Inv(rules, s) && CanWrite(s, pid)
    ensures Inv(rules, Wrote(s, pid))
  {
    var b := s.builders[pid];
    if b.phase.next < Turn(b.phase.graph) {
      WriteBeforeTurn(rules, s, pid);
    } else if b.phase.next == Turn(b.phase.graph) {
      WriteTurn(rules, s, pid);
    } else {
      WriteAfterTurn(rules, s, pid);
    }
  }

  lemma StepKeepsInv(rules: Rules, s: State, a: Action)
    requires Lawful(rules) && Inv(rules, s) && Enabled(rules, s, a)
    ensures Inv(rules, Apply(rules, s, a))
  {
    match a {
      case Acquire(_, _, _, _) => AcquireStep(rules, s, a);
      case ReadPointer(_) => ReadPointerStep(rules, s, a);
      case ReadSymbols(_, _) => ReadSymbolsStep(rules, s, a);
      case ReadRelations(_, _) => ReadRelationsStep(rules, s, a);
      case Compute(_, _) => ComputeStep(rules, s, a);
      case Write(pid) => WroteKeepsInv(rules, s, pid);
      case Leave(_) => LeaveStep(rules, s, a);
      case Release(_) => EndStep(rules, s, a);
      case Crash(_) => EndStep(rules, s, a);
      case Expire(_) => EndStep(rules, s, a);
    }
  }

  lemma {:induction false} ReachableInv(rules: Rules, s: State, actions: seq<Action>)
    requires Lawful(rules) && Reachable(rules, s, actions)
    ensures Inv(rules, s)
    decreases |actions|
  {
    if actions != [] {
      var init, a := actions[..|actions| - 1], actions[|actions| - 1];
      var s0 :| Reachable(rules, s0, init) && Enabled(rules, s0, a) && s == Apply(rules, s0, a);
      ReachableInv(rules, s0, init);
      StepKeepsInv(rules, s0, a);
    }
  }

  // ---- What every run guarantees -------------------------------------------------------

  // In every interleaving, with crashes anywhere: the rows at the published sha
  // are exactly the graph of the last build that moved the pointer - its symbols, its
  // endpoints, and each edge between two of its symbols as often as it lists it - and
  // that graph is the incremental build of its files over an outcome of the builds before.
  lemma PublishedIndexIsWhole(ix: Indexer, s: State, actions: seq<Action>, key: RepoKey)
    requires Reachable(IncrementalRules(ix), s, actions) && Pointer(s.db, key).Some?
    ensures Published(s, key).Some?
    ensures (var rows, g := At(s.db, key, Pointer(s.db, key).value), Published(s, key).value;
             && rows.symbols == g.nodes && rows.endpoints == g.endpoints
             && multiset(rows.relations) == multiset(StoredEdges(g))
             && DistinctIds(g.nodes) && Builds(ix, History(s, key), g))
  {
    var rules := IncrementalRules(ix);
    IncrementalIsLawful(ix);
    ReachableInv(rules, s, actions);
    assert PointerOk(rules, s, key);
    WrittenGraph(Published(s, key).value);
  }

  // So a look-up of the published sha reads that graph back, endpoints included, and
  // finds the index of the files of the last build that moved the pointer.
  lemma PublishedLookUp(ix: Indexer, owner: string -> string, s: State, actions: seq<Action>, key: RepoKey,
                        r: Option<Graph>)
    requires IndexerOk(ix, owner) && Reachable(IncrementalRules(ix), s, actions)
    requires Pointer(s.db, key).Some? && Reads(At(s.db, key, Pointer(s.db, key).value), r)
    ensures Published(s, key).Some? && ReadBack(Published(s, key).value, r)
    ensures r.Some? ==> multiset(r.value.endpoints) == multiset(Published(s, key).value.endpoints)
    ensures Reaches(ix, History(s, key), r)
    ensures IndexOf(ix, owner, r.GetOr(NO_GRAPH), LastFiles(History(s, key)))
  {
    PublishedIndexIsWhole(ix, s, actions, key);
    var rows := At(s.db, key, Pointer(s.db, key).value);
    assert ReadsGraph(rows, r);
    RowsReadBack(rows, Published(s, key).value, r);
    BuildsReach(ix, History(s, key), Published(s, key).value, r);
    ChainKeepsIndex(ix, owner, History(s, key), r);
  }

  // When a build has run its last statement, the pointer is on its sha, the rows there
  // are its graph, and no row of the repository is left at any other.
  lemma FinishedBuildIsAlone(rules: Rules, s: State, actions: seq<Action>, pid: nat)
    requires Lawful(rules) && Reachable(rules, s, actions) && pid in s.builders && s.builders[pid].phase.Writing?
    requires s.builders[pid].phase.next == |Statements(s.builders[pid].phase.graph)|
    ensures Pointer(s.db, s.builders[pid].key) == Some(s.builders[pid].sha)
    ensures Published(s, s.builders[pid].key) == Some(s.builders[pid].phase.graph)
    ensures At(s.db, s.builders[pid].key, s.builders[pid].sha) == Complete(s.builders[pid].phase.graph)
    ensures OnlyTarget(s.db, s.builders[pid].key, s.builders[pid].sha)
    ensures forall r | Reads(At(s.db, s.builders[pid].key, s.builders[pid].sha), r) ::
        ReadBack(s.builders[pid].phase.graph, r)
  {
    var b := s.builders[pid];
    var g := b.phase.graph;
    ReachableInv(rules, s, actions);
    assert BuilderOk(rules, s, b);
    assert |Statements(g)| == Turn(g) + 3;
    assert WriteStatements(g)[..|WriteStatements(g)|] == WriteStatements(g);
    forall r | Reads(At(s.db, b.key, b.sha), r) ensures ReadBack(g, r) {
      WrittenReadsBack(g, r);
    }
  }

  // Two live builders never work on the same repository.
  lemma BuildersExclude(rules: Rules, s: State, actions: seq<Action>, p: nat, q: nat)
    requires Lawful(rules) && Reachable(rules, s, actions) && p in s.builders && q in s.builders && p != q
    ensures s.builders[p].key != s.builders[q].key
    ensures s.builders[p].key in s.locks
  {
    ReachableInv(rules, s, actions);
    assert BuilderOk(rules, s, s.builders[p]);
  }
}
