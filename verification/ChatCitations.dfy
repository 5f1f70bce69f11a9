// Which citations accompany an answer (chat/agent.py).
module ChatCitations {
  import opened Lists
  import opened CodeGraph
  import opened ChatLoop

  const MAX_CITATIONS := 12

  datatype Workspace = Workspace(repoId: string, nodes: seq<Symbol>)

  datatype CitationKey = CitationKey(repoId: string, path: string, line: Option<nat>, symbolId: Option<string>)

  datatype Group = Group(repoId: string, citations: seq<Citation>)

  function KeyOf(c: Citation): CitationKey {
    CitationKey(c.repoId, c.path, c.line, c.symbolId)
  }

  function KnownPaths(workspaces: seq<Workspace>): set<(string, string)> {
    set w, s | w in workspaces && s in w.nodes :: (w.repoId, s.path)
  }

  function KnownSymbols(workspaces: seq<Workspace>): set<(string, string)> {
    set w, s | w in workspaces && s in w.nodes :: (w.repoId, s.id)
  }

  // A citation of a path, and of a symbol if it names one, that a workspace holds.
  predicate Known(c: Citation, paths: set<(string, string)>, symbols: set<(string, string)>) {
    (c.repoId, c.path) in paths && (c.symbolId.GetOr("") != "" ==> (c.repoId, c.symbolId.value) in symbols)
  }

  function Keys(citations: seq<Citation>): set<CitationKey> {
    set c | c in citations :: KeyOf(c)
  }

  // The known citations without repetition.
  function Valid(citations: seq<Citation>, paths: set<(string, string)>,
                 symbols: set<(string, string)>): seq<Citation>
  {
    if citations == [] then []
    else
      var kept, last := Valid(citations[..|citations| - 1], paths, symbols), citations[|citations| - 1];
      if Known(last, paths, symbols) && KeyOf(last) !in Keys(kept) then kept + [last] else kept
  }

  // by_repository.setdefault(repoId, []).append(citation)
  function AddToGroup(groups: seq<Group>, c: Citation): seq<Group> {
    if groups == [] then [Group(c.repoId, [c])]
    else if groups[0].repoId == c.repoId then [Group(c.repoId, groups[0].citations + [c])] + groups[1..]
    else [groups[0]] + AddToGroup(groups[1..], c)
  }

  function Grouped(citations: seq<Citation>): seq<Group> {
    if citations == [] then [] else AddToGroup(Grouped(citations[..|citations| - 1]), citations[|citations| - 1])
  }

  method GroupCitations(citations: seq<Citation>, paths: set<(string, string)>, symbols: set<(string, string)>)
    returns (groups: seq<Group>)
    ensures groups == Grouped(Valid(citations, paths, symbols))
  {
    var seen: set<CitationKey> := {};
    groups := [];
    for i := 0 to |citations|
      invariant seen == Keys(Valid(citations[..i], paths, symbols))
      invariant groups == Grouped(Valid(citations[..i], paths, symbols))
    {
      assert citations[..i + 1][..i] == citations[..i];
      var citation := citations[i];
      if (citation.repoId, citation.path) !in paths {
        continue;
      }
      if citation.symbolId.GetOr("") != "" && (citation.repoId, citation.symbolId.value) !in symbols {
        continue;
      }
      if KeyOf(citation) in seen {
        continue;
      }
      GroupedSnoc(Valid(citations[..i], paths, symbols), citation);
      seen := seen + {KeyOf(citation)};
      groups := AddToGroup(groups, citation);
    }
    assert citations[..|citations|] == citations;
  }

  lemma GroupedSnoc(citations: seq<Citation>, c: Citation)
    ensures Grouped(citations + [c]) == AddToGroup(Grouped(citations), c)
    ensures Keys(citations + [c]) == Keys(citations) + {KeyOf(c)}
  {
    assert (citations + [c])[..|citations|] == citations;
    assert forall x :: x in citations + [c] <==> x in citations || x == c;
  }

  // ---- Round robin ---------------------------------------------------------------------

  // What a group gives in round r.
  function Turn(g: Group, r: nat): seq<Citation> {
    if r < |g.citations| then [g.citations[r]] else []
  }

  // What the first k groups give in round r.
  function Layer(groups: seq<Group>, r: nat, k: nat): seq<Citation>
    requires k <= |groups|
  {
    if k == 0 then [] else Layer(groups, r, k - 1) + Turn(groups[k - 1], r)
  }

  // What all groups give in the first r rounds.
  function Rounds(groups: seq<Group>, r: nat): seq<Citation> {
    if r == 0 then [] else Rounds(groups, r - 1) + Layer(groups, r - 1, |groups|)
  }

  ghost predicate Exhausted(groups: seq<Group>, r: nat) {
    forall i | 0 <= i < |groups| :: |groups[i].citations| <= r
  }

  // Some rounds and a beginning of the next one: as much as fits, or everything.
  ghost predicate TakenInTurn(groups: seq<Group>, valid: seq<Citation>, r: nat, k: nat) {
    && k <= |groups|
    && valid == Rounds(groups, r) + Layer(groups, r, k)
    && |valid| <= MAX_CITATIONS
    && (|valid| == MAX_CITATIONS || (k == 0 && Exhausted(groups, r)))
  }

  // What is left of a group that has given n citations.
  function Rest(g: Group, n: nat): seq<Citation> {
    if n <= |g.citations| then g.citations[n..] else []
  }

  ghost predicate Left(groups: seq<Group>, remaining: seq<seq<Citation>>, r: nat, k: nat) {
    && |remaining| == |groups|
    && forall i | 0 <= i < |groups| :: remaining[i] == Rest(groups[i], if i < k then r + 1 else r)
  }

  // The first k groups have had their turn in round r.
  ghost predicate Passed(groups: seq<Group>, before: seq<Citation>, valid: seq<Citation>, remaining: seq<seq<Citation>>,
                         added: bool, r: nat, k: nat)
  {
    && k <= |groups| && Left(groups, remaining, r, k)
    && valid == before + Layer(groups, r, k)
    && |before| <= |valid|
    && if added then |valid| > |before| else valid == before && forall i | 0 <= i < k :: |groups[i].citations| <= r
  }

  lemma NothingLeft(groups: seq<Group>, before: seq<Citation>, valid: seq<Citation>, remaining: seq<seq<Citation>>,
                    added: bool, r: nat, i: nat)
    requires i < |groups| && Passed(groups, before, valid, remaining, added, r, i) && remaining[i] == []
    ensures Passed(groups, before, valid, remaining, added, r, i + 1)
  {
    RestEmpty(groups[i], r);
    LeftNext(groups, remaining, r, i);
    assert Layer(groups, r, i + 1) == Layer(groups, r, i);
  }

  lemma RestEmpty(g: Group, r: nat)
    requires Rest(g, r) == []
    ensures |g.citations| <= r && Rest(g, r + 1) == []
  {
  }

  lemma RestHead(g: Group, r: nat)
    requires Rest(g, r) != []
    ensures Turn(g, r) == [Rest(g, r)[0]] && Rest(g, r + 1) == Rest(g, r)[1..]
  {
  }

  lemma LeftNext(groups: seq<Group>, remaining: seq<seq<Citation>>, r: nat, i: nat)
    requires i < |groups| && |remaining| == |groups| && remaining[i] == Rest(groups[i], r + 1)
    requires forall j | 0 <= j < |groups| && j != i :: remaining[j] == Rest(groups[j], if j < i then r + 1 else r)
    ensures Left(groups, remaining, r, i + 1)
  {
  }

  lemma OneTaken(groups: seq<Group>, before: seq<Citation>, valid: seq<Citation>, remaining: seq<seq<Citation>>,
                 added: bool, r: nat, i: nat)
    requires i < |groups| && Passed(groups, before, valid, remaining, added, r, i) && remaining[i] != []
    ensures Passed(groups, before, valid + [remaining[i][0]], remaining[i := remaining[i][1..]], true, r, i + 1)
  {
    RestHead(groups[i], r);
    LeftNext(groups, remaining[i := remaining[i][1..]], r, i);
    assert Layer(groups, r, i + 1) == Layer(groups, r, i) + Turn(groups[i], r);
  }

  // One pass over the groups.
  method Pass(groups: seq<Group>, initial: seq<seq<Citation>>, ghost r: nat, before: seq<Citation>)
    returns (valid: seq<Citation>, remaining: seq<seq<Citation>>, added: bool, ghost k: nat)
    requires Left(groups, initial, r, 0) && |before| < MAX_CITATIONS
    ensures Passed(groups, before, valid, remaining, added, r, k) && |valid| <= MAX_CITATIONS
    ensures |valid| < MAX_CITATIONS ==> k == |groups|
  {
    valid, remaining, added, k := before, initial, false, 0;
    for i := 0 to |groups|
      invariant k == i && Passed(groups, before, valid, remaining, added, r, i) && |valid| < MAX_CITATIONS
    {
      k := i + 1;
      if remaining[i] == [] {
        NothingLeft(groups, before, valid, remaining, added, r, i);
        continue;
      }
      OneTaken(groups, before, valid, remaining, added, r, i);
      valid := valid + [remaining[i][0]];
      remaining := remaining[i := remaining[i][1..]];
      added := true;
      if |valid| >= MAX_CITATIONS {
        return;
      }
    }
  }

  // r whole rounds are over.
  ghost predicate InTurn(groups: seq<Group>, valid: seq<Citation>, remaining: seq<seq<Citation>>, r: nat) {
    Left(groups, remaining, r, 0) && valid == Rounds(groups, r) && |valid| <= MAX_CITATIONS
  }

  lemma RoundOver(groups: seq<Group>, before: seq<Citation>, valid: seq<Citation>, remaining: seq<seq<Citation>>,
                  added: bool, r: nat)
    requires before == Rounds(groups, r) && Passed(groups, before, valid, remaining, added, r, |groups|)
        && |valid| <= MAX_CITATIONS
    ensures InTurn(groups, valid, remaining, r + 1)
    ensures !added ==> TakenInTurn(groups, valid, r, 0)
  {
  }

  lemma Filled(groups: seq<Group>, before: seq<Citation>, valid: seq<Citation>, remaining: seq<seq<Citation>>,
               added: bool, r: nat, k: nat)
    requires before == Rounds(groups, r) && Passed(groups, before, valid, remaining, added, r, k)
        && |valid| == MAX_CITATIONS
    ensures TakenInTurn(groups, valid, r, k)
  {
  }

  lemma Untouched(groups: seq<Group>)
    ensures InTurn(groups, [], seq(|groups|, i requires 0 <= i < |groups| => groups[i].citations), 0)
  {
  }

  method TakeInTurn(groups: seq<Group>) returns (valid: seq<Citation>, ghost r: nat, ghost k: nat)
    ensures TakenInTurn(groups, valid, r, k)
  {
    valid, r, k := [], 0, 0;
    var remaining := seq(|groups|, i requires 0 <= i < |groups| => groups[i].citations);
    Untouched(groups);
    while |valid| < MAX_CITATIONS
      invariant InTurn(groups, valid, remaining, r) && k == 0
      decreases MAX_CITATIONS - |valid|
    {
      ghost var before := valid;
      var added;
      valid, remaining, added, k := Pass(groups, remaining, r, valid);
      if |valid| >= MAX_CITATIONS {
        Filled(groups, before, valid, remaining, added, r, k);
        return;
      }
      RoundOver(groups, before, valid, remaining, added, r);
      k := 0;
      if !added {
        return;
      }
      r := r + 1;
    }
  }

  // _validate_citations
  method ValidateCitations(citations: seq<Citation>, workspaces: seq<Workspace>) returns (valid: seq<Citation>)
    ensures exists r: nat, k: nat ::
      TakenInTurn(Grouped(Valid(citations, KnownPaths(workspaces), KnownSymbols(workspaces))), valid, r, k)
  {
    var groups := GroupCitations(citations, KnownPaths(workspaces), KnownSymbols(workspaces));
    ghost var r, k;
    valid, r, k := TakeInTurn(groups);
  }
}
