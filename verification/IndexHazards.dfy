// One build on its own, and rebuilding the published sha, which the protocol leaves out.
module IndexHazards {
  import opened Lists
  import opened CodeGraph
  import opened IndexStore

  const TAIL := [MovePointer, DropOldSymbols, DropOldEndpoints]

  lemma RunTail(db: Db, key: RepoKey, sha: string)
    ensures var after := ExecAll(db, key, sha, TAIL);
        && Pointer(after, key) == Some(sha) && At(after, key, sha) == At(db, key, sha)
        && (forall other | other != sha :: At(after, key, other) == EMPTY)
        && (forall k, s | k != key :: At(after, k, s) == At(db, k, s))
        && (forall k | k != key :: Pointer(after, k) == Pointer(db, k))
  {
    var a := Exec(db, key, sha, MovePointer);
    var b := Exec(a, key, sha, DropOldSymbols);
    var c := Exec(b, key, sha, DropOldEndpoints);
    assert TAIL[1..] == [DropOldSymbols, DropOldEndpoints] && TAIL[1..][1..] == [DropOldEndpoints];
    assert ExecAll(c, key, sha, []) == c;
    assert [DropOldEndpoints][1..] == [];
    assert ExecAll(db, key, sha, TAIL) == c;
    forall k, s ensures At(c, k, s) == if k == key && s != sha then EMPTY else At(db, k, s) {
      ExecAt(db, key, sha, MovePointer, k, s);
      ExecAt(a, key, sha, DropOldSymbols, k, s);
      ExecAt(b, key, sha, DropOldEndpoints, k, s);
    }
    forall k ensures Pointer(c, k) == if k == key then Some(sha) else Pointer(db, k) {
      ExecAt(db, key, sha, MovePointer, k, sha);
      ExecAt(a, key, sha, DropOldSymbols, k, sha);
      ExecAt(b, key, sha, DropOldEndpoints, k, sha);
    }
  }

  lemma PrefixIsLocal(g: Graph)
    ensures Statements(g)[..Turn(g)] == [ClearSymbols, ClearEndpoints] + WriteStatements(g)
    ensures Statements(g)[Turn(g)..] == TAIL
    ensures forall i | 0 <= i < Turn(g) :: IsLocal(Statements(g)[i])
  {
    WriteStatementsLocal(g);
  }

  lemma ClearedBucket(b: Bucket, sts: seq<Statement>)
    ensures ExecBucketAll(b, [ClearSymbols, ClearEndpoints] + sts) == ExecBucketAll(EMPTY, sts)
  {
    ExecBucketAppend(b, [ClearSymbols, ClearEndpoints], sts);
    assert [ClearSymbols, ClearEndpoints][..1] == [ClearSymbols];
    OneStatement(b, ClearSymbols);
  }

  // A build that runs alone stores its graph, points to it, leaves no other sha of
  // the repository, and touches no other repository.
  lemma BuildAlone(db: Db, key: RepoKey, sha: string, g: Graph)
    ensures var after := ExecAll(db, key, sha, Statements(g));
        && Pointer(after, key) == Some(sha)
        && At(after, key, sha) == Complete(g)
        && (forall other | other != sha :: At(after, key, other) == EMPTY)
        && (forall k, s | k != key :: At(after, k, s) == At(db, k, s))
        && (forall k | k != key :: Pointer(after, k) == Pointer(db, k))
    ensures forall r | DistinctIds(g.nodes) && Reads(At(ExecAll(db, key, sha, Statements(g)), key, sha), r) ::
        ReadBack(g, r)
  {
    PrefixIsLocal(g);
    var front := Statements(g)[..Turn(g)];
    assert Statements(g) == front + TAIL;
    ExecAllAppend(db, key, sha, front, TAIL);
    ExecAllLocal(db, key, sha, front);
    ClearedBucket(At(db, key, sha), WriteStatements(g));
    RunTail(ExecAll(db, key, sha, front), key, sha);
    forall r | DistinctIds(g.nodes) && Reads(Complete(g), r)
      ensures ReadBack(g, r)
    {
      WrittenReadsBack(g, r);
    }
  }

  // While a build writes, the published graph stays untouched at every
  // step if and only if the build targets another sha.
  lemma ReadableThroughout(db: Db, key: RepoKey, sha: string, g: Graph, published: string)
    requires Pointer(db, key) == Some(published) && At(db, key, published).symbols != []
    ensures (forall n | 0 <= n <= Turn(g) ::
               var mid := ExecAll(db, key, sha, Statements(g)[..n]);
               Pointer(mid, key) == Some(published) && At(mid, key, published) == At(db, key, published))
       <==> sha != published
  {
    PrefixIsLocal(g);
    var sts := Statements(g);
    if sha != published {
      forall n | 0 <= n <= Turn(g)
        ensures var mid := ExecAll(db, key, sha, sts[..n]);
            Pointer(mid, key) == Some(published) && At(mid, key, published) == At(db, key, published)
      {
        ExecAllLocal(db, key, sha, sts[..n]);
      }
    } else {
      ExecAllLocal(db, key, sha, sts[..1]);
      assert sts[..1] == [ClearSymbols];
      OneStatement(At(db, key, sha), ClearSymbols);
    }
  }
}
