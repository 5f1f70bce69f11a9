// What lies around a symbol: expand_neighborhood (code_graph/viz.py) and the
// neighbors tool (chat/tools.py, _walk).
module Neighborhood {
  import opened Lists
  import opened CodeGraph
  import opened Walks

  // ---- expand_neighborhood --------------------------------------------------------

  // Edges of every kind, in either direction.
  function BothWays(edges: seq<Edge>): Links {
    (set e | e in edges :: (e.fromId, e.toId)) + (set e | e in edges :: (e.toId, e.fromId))
  }

  function Hops(depth: int): nat {
    if depth < 0 then 0 else depth
  }

  function Around(g: Graph, focus: string, depth: int): set<string> {
    Ball(BothWays(g.edges), {focus}, Hops(depth))
  }

  function NodesAmong(g: Graph, ids: set<string>): seq<Symbol> {
    Filter(g.nodes, HasIdAmong(ids))
  }

  function EdgesAmong(g: Graph, ids: set<string>): seq<Edge> {
    Filter(g.edges, JoinsAmong(ids))
  }

  lemma BothWaysTake(edges: seq<Edge>, i: nat)
    requires i < |edges|
    ensures BothWays(edges[..i + 1])
         == BothWays(edges[..i]) + {(edges[i].fromId, edges[i].toId), (edges[i].toId, edges[i].fromId)}
  {
    assert edges[..i + 1] == edges[..i] + [edges[i]];
  }

  method Adjacency(edges: seq<Edge>) returns (adjacency: map<string, seq<string>>)
    ensures forall a, b :: (a in adjacency && b in adjacency[a]) <==> (a, b) in BothWays(edges)
  {
    adjacency := map[];
    for i := 0 to |edges|
      invariant forall a, b :: (a in adjacency && b in adjacency[a]) <==> (a, b) in BothWays(edges[..i])
    {
      BothWaysTake(edges, i);
      var e := edges[i];
      adjacency := AddNeighbor(adjacency, e.fromId, e.toId);
      adjacency := AddNeighbor(adjacency, e.toId, e.fromId);
    }
    assert edges[..|edges|] == edges;
  }

  // adjacency.setdefault(a, []).append(b)
  function AddNeighbor(adjacency: map<string, seq<string>>, a: string, b: string): (result: map<string, seq<string>>)
    ensures forall x, y ::
        (x in result && y in result[x]) <==> (x in adjacency && y in adjacency[x]) || (x == a && y == b)
  {
    adjacency[a := (if a in adjacency then adjacency[a] else []) + [b]]
  }

  // The new ids one round reaches from the frontier.
  method NextFrontier(adjacency: map<string, seq<string>>, ghost links: Links, visited0: set<string>,
                      frontier: set<string>)
    returns (visited: set<string>, next: set<string>)
    requires forall a, b :: (a in adjacency && b in adjacency[a]) <==> (a, b) in links
    ensures visited == visited0 + Successors(links, frontier)
    ensures next == visited - visited0
  {
    visited, next := visited0, {};
    var rest := frontier;
    while rest != {}
      invariant rest <= frontier && visited0 <= visited && next == visited - visited0
      invariant StillToVisit(links, visited0, frontier, visited, rest)
      decreases |rest|
    {
      var id :| id in rest;
      ghost var before := visited;
      visited, next := VisitId(adjacency, links, visited0, visited, next, id);
      OneVisited(links, visited0, frontier, before, rest, id);
      rest := rest - {id};
    }
    NoSuccessors(links, visited);
  }

  // What the ids in rest lead to is all that is missing.
  ghost predicate StillToVisit(links: Links, visited0: set<string>, frontier: set<string>, visited: set<string>,
                               rest: set<string>)
  {
    visited + Successors(links, rest) == visited0 + Successors(links, frontier)
  }

  lemma OneVisited(links: Links, visited0: set<string>, frontier: set<string>, visited: set<string>, rest: set<string>,
                   id: string)
    requires StillToVisit(links, visited0, frontier, visited, rest) && id in rest
    ensures StillToVisit(links, visited0, frontier, visited + Successors(links, {id}), rest - {id})
  {
    SuccessorsSplit(links, rest, id);
  }

  lemma NoSuccessors(links: Links, visited: set<string>)
    ensures visited + Successors(links, {}) == visited
  {
  }

  lemma SuccessorsSplit(links: Links, from: set<string>, id: string)
    requires id in from
    ensures Successors(links, from) == Successors(links, {id}) + Successors(links, from - {id})
  {
  }

  method VisitId(adjacency: map<string, seq<string>>, ghost links: Links, ghost visited0: set<string>,
                 visited1: set<string>, next1: set<string>, id: string)
    returns (visited: set<string>, next: set<string>)
    requires forall a, b :: (a in adjacency && b in adjacency[a]) <==> (a, b) in links
    requires visited0 <= visited1 && next1 == visited1 - visited0
    ensures visited == visited1 + Successors(links, {id}) && next == visited - visited0
  {
    var neighbors := if id in adjacency then adjacency[id] else [];
    SuccessorsOfOne(links, id, neighbors);
    visited, next := AddUnseen(visited0, visited1, next1, neighbors);
  }

  method AddUnseen(ghost visited0: set<string>, visited1: set<string>, next1: set<string>, neighbors: seq<string>)
    returns (visited: set<string>, next: set<string>)
    requires visited0 <= visited1 && next1 == visited1 - visited0
    ensures visited == visited1 + (set n | n in neighbors) && next == visited - visited0
  {
    visited, next := visited1, next1;
    for i := 0 to |neighbors|
      invariant visited == visited1 + (set n | n in neighbors[..i]) && next == visited - visited0
    {
      assert neighbors[..i + 1] == neighbors[..i] + [neighbors[i]];
      if neighbors[i] !in visited {
        visited := visited + {neighbors[i]};
        next := next + {neighbors[i]};
      }
    }
    assert neighbors[..|neighbors|] == neighbors;
  }

  lemma SuccessorsOfOne(links: Links, id: string, neighbors: seq<string>)
    requires forall y :: y in neighbors <==> (id, y) in links
    ensures Successors(links, {id}) == set n | n in neighbors
  {
    forall y ensures y in Successors(links, {id}) <==> y in neighbors {
      if y in neighbors { assert (id, y) in links; }
    }
  }

  // What the n-th round reached first.
  function Newest(links: Links, sources: set<string>, n: nat): set<string> {
    if n == 0 then sources else Ball(links, sources, n) - Ball(links, sources, n - 1)
  }

  // Stepping from the newest layer is as good as stepping from the whole ball.
  lemma LayerStep(links: Links, sources: set<string>, n: nat)
    ensures Ball(links, sources, n) + Successors(links, Newest(links, sources, n)) == Ball(links, sources, n + 1)
  {
    var frontier := Newest(links, sources, n);
    if n > 0 {
      var inner := Ball(links, sources, n - 1);
      assert Successors(links, Ball(links, sources, n)) <= Successors(links, inner) + Successors(links, frontier);
      assert Successors(links, inner) <= Ball(links, sources, n);
    }
  }

  // The search of expand_neighborhood, for a symbol id: the symbols within `depth` hops and the
  // edges between them; nothing for an unknown id.
  method SymbolsAround(g: Graph, focus: string, depth: int) returns (nodes: seq<Symbol>, edges: seq<Edge>)
    ensures Find(g.nodes, focus).None? ==> nodes == [] && edges == []
    ensures Find(g.nodes, focus).Some? ==>
        nodes == NodesAmong(g, Around(g, focus, depth)) && edges == EdgesAmong(g, Around(g, focus, depth))
  {
    var adjacency := Adjacency(g.edges);
    if Find(g.nodes, focus).None? {
      return [], [];
    }
    ghost var links := BothWays(g.edges);
    var visited, frontier := {focus}, {focus};
    for k := 0 to Hops(depth)
      invariant visited == Ball(links, {focus}, k)
      invariant frontier == Newest(links, {focus}, k)
    {
      LayerStep(links, {focus}, k);
      visited, frontier := NextFrontier(adjacency, links, visited, frontier);
    }
    nodes, edges := NodesAmong(g, visited), EdgesAmong(g, visited);
  }

  // An edge of any kind joins the two, in one direction or the other.
  predicate Joined(edges: seq<Edge>, a: string, b: string) {
    exists e | e in edges :: (e.fromId == a && e.toId == b) || (e.fromId == b && e.toId == a)
  }

  function JoinedStep(edges: seq<Edge>): (string, string) -> bool {
    (a: string, b: string) => Joined(edges, a, b)
  }

  lemma LinksJoin(edges: seq<Edge>)
    ensures LinksAre(BothWays(edges), JoinedStep(edges))
  {
  }

  // Within that many steps of the focus.
  ghost predicate Near(g: Graph, focus: string, depth: int, id: string) {
    exists p :: Path(JoinedStep(g.edges), {focus}, p, id) && (|p| == 1 || |p| - 1 <= depth)
  }

  // What is shown around a known symbol: the symbols within `depth` steps, and the edges
  // between two of those.
  lemma ShownExactly(g: Graph, focus: string, depth: int, s: Symbol, e: Edge)
    ensures s in NodesAmong(g, Around(g, focus, depth)) <==> s in g.nodes && Near(g, focus, depth, s.id)
    ensures multiset(EdgesAmong(g, Around(g, focus, depth)))[e]
         == if Near(g, focus, depth, e.fromId) && Near(g, focus, depth, e.toId) then multiset(g.edges)[e] else 0
  {
    var ids := Around(g, focus, depth);
    FilterMember(g.nodes, HasIdAmong(ids), s);
    FilterCount(g.edges, JoinsAmong(ids), e);
    NearIsAround(g, focus, depth, s.id);
    NearIsAround(g, focus, depth, e.fromId);
    NearIsAround(g, focus, depth, e.toId);
  }

  lemma NearIsAround(g: Graph, focus: string, depth: int, id: string)
    ensures id in Around(g, focus, depth) <==> Near(g, focus, depth, id)
  {
    var links, step := BothWays(g.edges), JoinedStep(g.edges);
    LinksJoin(g.edges);
    BallIsWalks(links, {focus}, id, Hops(depth));
    if m: nat :| m <= Hops(depth) && Arrives(links, {focus}, id, m) {
      ArrivesIsPath(links, step, {focus}, id, m);
    }
    if p :| Path(step, {focus}, p, id) && (|p| == 1 || |p| - 1 <= depth) {
      ArrivesIsPath(links, step, {focus}, id, |p| - 1);
    }
  }

  // A symbol is shown exactly when some undirected walk of at most `depth` edges
  // joins it to the focus.
  lemma ShownWithinDepth(g: Graph, focus: string, depth: int, s: Symbol)
    ensures s in NodesAmong(g, Around(g, focus, depth))
       <==> s in g.nodes && exists m: nat | m <= Hops(depth) :: Arrives(BothWays(g.edges), {focus}, s.id, m)
  {
    var ids := Around(g, focus, depth);
    FilterMember(g.nodes, HasIdAmong(ids), s);
    BallIsWalks(BothWays(g.edges), {focus}, s.id, Hops(depth));
  }

  // ---- The neighbors tool ------------------------------------------------------------

  datatype Direction = Callers | Callees | Both
  datatype Relation = Caller | Callee
  datatype Found = Found(symbol: Symbol, relation: Relation, hops: nat)

  predicate Admissible(nodes: seq<Symbol>, id: string) {
    Find(nodes, id).Some? && Find(nodes, id).value.kind != FileKind
  }

  // Edges lead forward to callees and back to callers, and only to known symbols
  // that are not files.
  function CallLinks(nodes: seq<Symbol>, edges: seq<Edge>, direction: Direction): Links {
    (set e | e in edges && direction != Callers && Admissible(nodes, e.toId) :: (e.fromId, e.toId))
    + (set e | e in edges && direction != Callees && Admissible(nodes, e.fromId) :: (e.toId, e.fromId))
  }

  lemma CallLinksTake(nodes: seq<Symbol>, edges: seq<Edge>, direction: Direction, i: nat)
    requires i < |edges|
    ensures CallLinks(nodes, edges[..i + 1], direction) == CallLinks(nodes, edges[..i], direction)
         + (if direction != Callers && Admissible(nodes, edges[i].toId) then {(edges[i].fromId, edges[i].toId)} else {})
         + (if direction != Callees && Admissible(nodes, edges[i].fromId)
            then {(edges[i].toId, edges[i].fromId)} else {})
  {
    assert edges[..i + 1] == edges[..i] + [edges[i]];
  }

  function IdsOf(found: seq<Found>): set<string> {
    set f | f in found :: f.symbol.id
  }

  ghost predicate DistinctFound(found: seq<Found>) {
    forall i, j | 0 <= i < j < |found| :: found[i].symbol.id != found[j].symbol.id
  }

  // A neighbour one step beyond `previous`, reached in the direction it is listed under.
  ghost predicate ReachedFrom(g: Graph, previous: set<string>, f: Found) {
    && f.symbol in g.nodes && f.symbol.kind != FileKind
    && exists e | e in g.edges ::
         if f.relation == Callee then e.fromId in previous && e.toId == f.symbol.id
         else e.toId in previous && e.fromId == f.symbol.id
  }

  // The target an edge offers, forward first.
  function NextStep(direction: Direction, frontier: set<string>, e: Edge): Option<(string, Relation)> {
    if direction != Callers && e.fromId in frontier then Some((e.toId, Callee))
    else if direction != Callees && e.toId in frontier then Some((e.fromId, Caller))
    else None
  }

  // Looking at the forward direction alone when both apply loses nothing: then both
  // ends have been seen.
  lemma HopTarget(nodes: seq<Symbol>, links: Links, links': Links, direction: Direction, frontier: set<string>,
                  seen0: set<string>, e: Edge)
    requires frontier <= seen0
    requires links' == links
      + (if direction != Callers && Admissible(nodes, e.toId) then {(e.fromId, e.toId)} else {})
      + (if direction != Callees && Admissible(nodes, e.fromId) then {(e.toId, e.fromId)} else {})
    ensures var step := NextStep(direction, frontier, e);
        seen0 + Successors(links', frontier)
        == seen0 + Successors(links, frontier)
           + if step.Some? && Admissible(nodes, step.value.0) then {step.value.0} else {}
  {
    var step := NextStep(direction, frontier, e);
    var added := if step.Some? && Admissible(nodes, step.value.0) then {step.value.0} else {};
    forall y ensures y in seen0 + Successors(links', frontier) <==> y in seen0 + Successors(links, frontier) + added {
      if y in added {
        assert (if direction != Callers && e.fromId in frontier
                then (e.fromId, e.toId) else (e.toId, e.fromId)) in links';
      }
      if y in Successors(links, frontier) {
        var l :| l in links && l.0 in frontier && l.1 == y;
        assert l in links';
      }
    }
  }

  // What the edges so far lead to has been seen.
  ghost predicate SeenSoFar(g: Graph, direction: Direction, seen0: set<string>, frontier: set<string>, i: nat,
                            seen: set<string>)
  {
    && i <= |g.edges| && frontier <= seen0 <= seen
    && seen == seen0 + Successors(CallLinks(g.nodes, g.edges[..i], direction), frontier)
  }

  // What is new has been listed once, at this hop.
  ghost predicate ListedSoFar(g: Graph, hop: nat, frontier: set<string>, found0: seq<Found>, next: set<string>,
                              found: seq<Found>)
  {
    && found0 <= found && DistinctFound(found) && IdsOf(found) == IdsOf(found0) + next
    && forall j | |found0| <= j < |found| :: found[j].hops == hop && ReachedFrom(g, frontier, found[j])
  }

  function Target(g: Graph, direction: Direction, frontier: set<string>, e: Edge): set<string> {
    var step := NextStep(direction, frontier, e);
    if step.Some? && Admissible(g.nodes, step.value.0) then {step.value.0} else {}
  }

  lemma SeenNext(g: Graph, direction: Direction, seen0: set<string>, frontier: set<string>, i: nat, seen: set<string>)
    requires i < |g.edges| && SeenSoFar(g, direction, seen0, frontier, i, seen)
    ensures SeenSoFar(g, direction, seen0, frontier, i + 1, seen + Target(g, direction, frontier, g.edges[i]))
  {
    CallLinksTake(g.nodes, g.edges, direction, i);
    HopTarget(g.nodes, CallLinks(g.nodes, g.edges[..i], direction), CallLinks(g.nodes, g.edges[..i + 1], direction),
              direction, frontier, seen0, g.edges[i]);
  }

  lemma ListedNext(g: Graph, hop: nat, frontier: set<string>, found0: seq<Found>, next: set<string>, found: seq<Found>,
                   f: Found)
    requires ListedSoFar(g, hop, frontier, found0, next, found) && f.symbol.id !in IdsOf(found)
    requires f.hops == hop && ReachedFrom(g, frontier, f)
    ensures ListedSoFar(g, hop, frontier, found0, next + {f.symbol.id}, found + [f])
  {
    AppendFound(found, f);
  }

  lemma TargetReached(g: Graph, direction: Direction, hop: nat, frontier: set<string>, e: Edge)
    requires e in g.edges && Target(g, direction, frontier, e) != {}
    ensures (var step := NextStep(direction, frontier, e).value;
             ReachedFrom(g, frontier, Found(Find(g.nodes, step.0).value, step.1, hop)))
  {
  }

  // The body of the loop over edges.
  method HopEdge(g: Graph, direction: Direction, hop: nat, ghost seen0: set<string>, frontier: set<string>,
                 ghost found0: seq<Found>, i: nat, seen1: set<string>, next1: set<string>, found1: seq<Found>)
    returns (seen: set<string>, next: set<string>, found: seq<Found>)
    requires i < |g.edges| && IdsOf(found0) <= seen0 && next1 == seen1 - seen0
    requires SeenSoFar(g, direction, seen0, frontier, i, seen1) && ListedSoFar(g, hop, frontier, found0, next1, found1)
    ensures next == seen - seen0
    ensures SeenSoFar(g, direction, seen0, frontier, i + 1, seen) && ListedSoFar(g, hop, frontier, found0, next, found)
  {
    var e := g.edges[i];
    seen, next, found := seen1, next1, found1;
    SeenNext(g, direction, seen0, frontier, i, seen);
    var step := NextStep(direction, frontier, e);
    if step.Some? && step.value.0 !in seen && Admissible(g.nodes, step.value.0) {
      var f := Found(Find(g.nodes, step.value.0).value, step.value.1, hop);
      TargetReached(g, direction, hop, frontier, e);
      ListedNext(g, hop, frontier, found0, next, found, f);
      seen, next, found := seen + {step.value.0}, next + {step.value.0}, found + [f];
    } else {
      assert seen + Target(g, direction, frontier, e) == seen;
    }
  }

  lemma NothingSeenYet(g: Graph, direction: Direction, seen0: set<string>, frontier: set<string>)
    requires frontier <= seen0
    ensures SeenSoFar(g, direction, seen0, frontier, 0, seen0)
  {
  }

  // One hop over all edges from the frontier.
  method WalkHop(g: Graph, direction: Direction, hop: nat, seen0: set<string>, frontier: set<string>,
                 found0: seq<Found>)
    returns (seen: set<string>, next: set<string>, found: seq<Found>)
    requires frontier <= seen0 && IdsOf(found0) <= seen0 && DistinctFound(found0)
    ensures seen == seen0 + Successors(CallLinks(g.nodes, g.edges, direction), frontier) && next == seen - seen0
    ensures ListedSoFar(g, hop, frontier, found0, next, found)
  {
    seen, next, found := seen0, {}, found0;
    NothingSeenYet(g, direction, seen0, frontier);
    for i := 0 to |g.edges|
      invariant SeenSoFar(g, direction, seen0, frontier, i, seen) && next == seen - seen0
      invariant ListedSoFar(g, hop, frontier, found0, next, found)
    {
      seen, next, found := HopEdge(g, direction, hop, seen0, frontier, found0, i, seen, next, found);
    }
    assert g.edges[..|g.edges|] == g.edges;
  }

  lemma AppendFound(found: seq<Found>, f: Found)
    requires DistinctFound(found) && f.symbol.id !in IdsOf(found)
    ensures DistinctFound(found + [f]) && IdsOf(found + [f]) == IdsOf(found) + {f.symbol.id}
  {
  }

  // A neighbour is listed at its distance, next to the ball one step smaller.
  ghost predicate FoundAt(g: Graph, links: Links, start: string, f: Found) {
    && 1 <= f.hops && IsDistance(links, {start}, f.symbol.id, f.hops)
    && ReachedFrom(g, Ball(links, {start}, f.hops - 1), f)
  }

  // One round of _walk, for a hop that follows complete rounds.
  method WalkRound(g: Graph, ghost start: string, direction: Direction, hop: nat, seen0: set<string>,
                   frontier: set<string>, found0: seq<Found>)
    returns (seen: set<string>, next: set<string>, found: seq<Found>)
    requires var links := CallLinks(g.nodes, g.edges, direction);
        && hop >= 1 && RoundDone(g, links, start, hop - 1, seen0, frontier, found0)
    ensures RoundDone(g, CallLinks(g.nodes, g.edges, direction), start, hop, seen, next, found)
  {
    ghost var links := CallLinks(g.nodes, g.edges, direction);
    MayHop(g, links, start, hop - 1, seen0, frontier, found0);
    seen, next, found := WalkHop(g, direction, hop, seen0, frontier, found0);
    HopReaches(g, links, start, hop, seen0, frontier, found0);
    NextRound(g, links, start, hop, seen0, frontier, found0, seen, next, found);
  }

  lemma HopReaches(g: Graph, links: Links, start: string, hop: nat, seen: set<string>, frontier: set<string>,
                   found: seq<Found>)
    requires hop >= 1 && RoundDone(g, links, start, hop - 1, seen, frontier, found)
    ensures seen + Successors(links, frontier) == Ball(links, {start}, hop)
  {
    LayerStep(links, {start}, hop - 1);
  }

  lemma MayHop(g: Graph, links: Links, start: string, n: nat, seen: set<string>, frontier: set<string>,
               found: seq<Found>)
    requires RoundDone(g, links, start, n, seen, frontier, found)
    ensures frontier <= seen && IdsOf(found) <= seen && DistinctFound(found)
  {
  }

  // What a hop adds to complete rounds makes one more.
  lemma NextRound(g: Graph, links: Links, start: string, hop: nat, seen0: set<string>, frontier: set<string>,
                  found0: seq<Found>, seen: set<string>, next: set<string>, found: seq<Found>)
    requires hop >= 1 && RoundDone(g, links, start, hop - 1, seen0, frontier, found0)
    requires seen == Ball(links, {start}, hop) && next == seen - seen0
    requires ListedSoFar(g, hop, frontier, found0, next, found)
    ensures RoundDone(g, links, start, hop, seen, next, found)
  {
    assert seen0 <= seen;
    FoundAtHop(g, links, start, hop, found0, found, frontier, next);
    HopsGrow(g, links, start, hop, frontier, found0, next, found);
    AllListed(g, start, hop, seen0, frontier, found0, seen, next, found);
  }

  lemma HopsGrow(g: Graph, links: Links, start: string, hop: nat, frontier: set<string>, found0: seq<Found>,
                 next: set<string>, found: seq<Found>)
    requires hop >= 1 && ListedSoFar(g, hop, frontier, found0, next, found)
    requires FoundWithin(g, links, start, hop - 1, found0)
    requires forall f | f in found :: FoundAt(g, links, start, f)
    ensures FoundWithin(g, links, start, hop, found)
  {
    forall f | f in found ensures f.hops <= hop {
      var i :| 0 <= i < |found| && found[i] == f;
      if i < |found0| { assert found0[i] == f; }
    }
  }

  lemma AllListed(g: Graph, start: string, hop: nat, seen0: set<string>, frontier: set<string>, found0: seq<Found>,
                  seen: set<string>, next: set<string>, found: seq<Found>)
    requires ListedSoFar(g, hop, frontier, found0, next, found)
    requires IdsOf(found0) == seen0 - {start} && start in seen0 && seen0 <= seen && next == seen - seen0
    ensures DistinctFound(found) && IdsOf(found) == seen - {start}
  {
  }

  // After n rounds, the ball of radius n has been seen and listed.
  ghost predicate RoundDone(g: Graph, links: Links, start: string, n: nat, seen: set<string>, frontier: set<string>,
                            found: seq<Found>)
  {
    && seen == Ball(links, {start}, n) && start in seen
    && frontier == Newest(links, {start}, n)
    && DistinctFound(found) && IdsOf(found) == seen - {start}
    && FoundWithin(g, links, start, n, found)
  }

  ghost predicate FoundWithin(g: Graph, links: Links, start: string, n: nat, found: seq<Found>) {
    forall f | f in found :: FoundAt(g, links, start, f) && f.hops <= n
  }

  // What the neighbors tool promises: every symbol within `depth` hops except the
  // start, once, each at its distance.
  ghost predicate WalkExact(g: Graph, links: Links, start: string, depth: nat, found: seq<Found>) {
    && DistinctFound(found)
    && IdsOf(found) == Ball(links, {start}, depth) - {start}
    && forall f | f in found :: FoundAt(g, links, start, f) && f.hops <= depth
  }

  lemma RoundsSuffice(g: Graph, links: Links, start: string, n: nat, depth: nat, seen: set<string>,
                      frontier: set<string>, found: seq<Found>)
    requires n <= depth && RoundDone(g, links, start, n, seen, frontier, found) && (n == depth || frontier == {})
    ensures WalkExact(g, links, start, depth, found)
  {
    if n < depth {
      NothingMore(links, start, n - 1, depth);
    }
  }

  lemma NoNews(inner: set<string>, outer: set<string>)
    requires inner <= outer && outer - inner == {}
    ensures inner == outer
  {
    forall x | x in outer ensures x in inner {
      assert x in outer - inner || x in inner;
    }
  }

  // After a round without news, the ball is complete.
  lemma NothingMore(links: Links, start: string, m: nat, depth: nat)
    requires m < depth && Ball(links, {start}, m + 1) - Ball(links, {start}, m) == {}
    ensures Ball(links, {start}, depth) == Ball(links, {start}, m + 1)
  {
    BallNotSmaller(links, {start}, m);
    NoNews(Ball(links, {start}, m), Ball(links, {start}, m + 1));
    BallStable(links, {start}, m, depth);
  }

  lemma BallNotSmaller(links: Links, sources: set<string>, m: nat)
    ensures Ball(links, sources, m) <= Ball(links, sources, m + 1)
  {
  }

  lemma NoRoundYet(g: Graph, links: Links, start: string)
    ensures RoundDone(g, links, start, 0, {start}, {start}, [])
  {
  }

  // From a symbol to one it calls, or to one that calls it, whichever is asked for; only to
  // known symbols that are not files.
  predicate Follows(g: Graph, direction: Direction, a: string, b: string) {
    && Find(g.nodes, b).Some? && Find(g.nodes, b).value.kind != FileKind
    && (|| (direction in {Callees, Both} && exists e | e in g.edges :: e.fromId == a && e.toId == b)
        || (direction in {Callers, Both} && exists e | e in g.edges :: e.fromId == b && e.toId == a))
  }

  function FollowsStep(g: Graph, direction: Direction): (string, string) -> bool {
    (a: string, b: string) => Follows(g, direction, a, b)
  }

  lemma LinksFollow(g: Graph, direction: Direction)
    ensures LinksAre(CallLinks(g.nodes, g.edges, direction), FollowsStep(g, direction))
  {
    forall a, b
      ensures (a, b) in CallLinks(g.nodes, g.edges, direction) <==> FollowsStep(g, direction)(a, b)
    {
    }
  }

  // Every symbol some path of at most `depth` steps leads to, except the start, is listed
  // once, with the length of a shortest path and as a callee or a caller of one before it.
  ghost predicate WalkFound(g: Graph, start: string, direction: Direction, depth: nat, found: seq<Found>) {
    && DistinctFound(found)
    && (forall x: string :: Listed(found, x) <==> x != start && WithinSteps(g, start, direction, depth, x))
    && (forall f | f in found :: ShortestPath(FollowsStep(g, direction), {start}, f.symbol.id, f.hops))
    && (forall f | f in found :: Related(g, start, direction, f))
  }

  ghost predicate Listed(found: seq<Found>, x: string) {
    exists f :: f in found && f.symbol.id == x
  }

  ghost predicate WithinSteps(g: Graph, start: string, direction: Direction, depth: nat, x: string) {
    exists p :: Path(FollowsStep(g, direction), {start}, p, x) && |p| - 1 <= depth
  }

  // The last step of a shortest path leads to a callee, or to a caller.
  ghost predicate Related(g: Graph, start: string, direction: Direction, f: Found) {
    && f.symbol in g.nodes && f.symbol.kind != FileKind
    && exists p, e: Edge ::
         && Path(FollowsStep(g, direction), {start}, p, if f.relation == Callee then e.fromId else e.toId)
         && |p| <= f.hops && e in g.edges
         && (if f.relation == Callee then e.toId else e.fromId) == f.symbol.id
  }

  lemma InBallByPath(g: Graph, start: string, direction: Direction, x: string, n: nat)
    ensures x in Ball(CallLinks(g.nodes, g.edges, direction), {start}, n)
       <==> WithinSteps(g, start, direction, n, x)
  {
    var links, step := CallLinks(g.nodes, g.edges, direction), FollowsStep(g, direction);
    LinksFollow(g, direction);
    BallIsWalks(links, {start}, x, n);
    if m: nat :| m <= n && Arrives(links, {start}, x, m) {
      ArrivesIsPath(links, step, {start}, x, m);
    }
    if p :| Path(step, {start}, p, x) && |p| - 1 <= n {
      ArrivesIsPath(links, step, {start}, x, |p| - 1);
    }
  }

  lemma FoundByPath(g: Graph, start: string, direction: Direction, f: Found)
    requires FoundAt(g, CallLinks(g.nodes, g.edges, direction), start, f)
    ensures ShortestPath(FollowsStep(g, direction), {start}, f.symbol.id, f.hops) && Related(g, start, direction, f)
  {
    LinksFollow(g, direction);
    DistanceIsPath(CallLinks(g.nodes, g.edges, direction), FollowsStep(g, direction), {start}, f.symbol.id, f.hops);
    var previous := Ball(CallLinks(g.nodes, g.edges, direction), {start}, f.hops - 1);
    var e :| e in g.edges
        && if f.relation == Callee then e.fromId in previous && e.toId == f.symbol.id
           else e.toId in previous && e.fromId == f.symbol.id;
    RelatedByPath(g, start, direction, f, e);
  }

  lemma RelatedByPath(g: Graph, start: string, direction: Direction, f: Found, e: Edge)
    requires f.symbol in g.nodes && f.symbol.kind != FileKind && f.hops >= 1 && e in g.edges
    requires (if f.relation == Callee then e.toId else e.fromId) == f.symbol.id
    requires (if f.relation == Callee then e.fromId else e.toId)
        in Ball(CallLinks(g.nodes, g.edges, direction), {start}, f.hops - 1)
    ensures Related(g, start, direction, f)
  {
    var x := if f.relation == Callee then e.fromId else e.toId;
    InBallByPath(g, start, direction, x, f.hops - 1);
    var p :| Path(FollowsStep(g, direction), {start}, p, x) && |p| - 1 <= f.hops - 1;
  }

  lemma WalkByPaths(g: Graph, start: string, direction: Direction, depth: nat, found: seq<Found>)
    requires WalkExact(g, CallLinks(g.nodes, g.edges, direction), start, depth, found)
    ensures WalkFound(g, start, direction, depth, found)
  {
    forall x: string ensures Listed(found, x) <==> x != start && WithinSteps(g, start, direction, depth, x) {
      assert x in IdsOf(found) <==> Listed(found, x);
      InBallByPath(g, start, direction, x, depth);
    }
    forall f | f in found
      ensures ShortestPath(FollowsStep(g, direction), {start}, f.symbol.id, f.hops) && Related(g, start, direction, f)
    {
      FoundByPath(g, start, direction, f);
    }
  }

  // _walk
  method NeighborWalk(g: Graph, start: string, direction: Direction, depth: nat) returns (found: seq<Found>)
    ensures WalkExact(g, CallLinks(g.nodes, g.edges, direction), start, depth, found)
    ensures WalkFound(g, start, direction, depth, found)
  {
    ghost var n, seen, frontier;
    found, n, seen, frontier := WalkRounds(g, start, direction, depth);
    RoundsSuffice(g, CallLinks(g.nodes, g.edges, direction), start, n, depth, seen, frontier, found);
    WalkByPaths(g, start, direction, depth, found);
  }

  // The loop of _walk, which ends early when a round brings nothing new.
  method WalkRounds(g: Graph, start: string, direction: Direction, depth: nat)
    returns (found: seq<Found>, ghost n: nat, ghost lastSeen: set<string>, ghost lastFrontier: set<string>)
    ensures n <= depth && (n == depth || lastFrontier == {})
    ensures RoundDone(g, CallLinks(g.nodes, g.edges, direction), start, n, lastSeen, lastFrontier, found)
  {
    ghost var links := CallLinks(g.nodes, g.edges, direction);
    var seen, frontier := {start}, {start};
    found, n := [], 0;
    NoRoundYet(g, links, start);
    for hop := 1 to depth + 1
      invariant n == hop - 1 && RoundDone(g, links, start, n, seen, frontier, found)
    {
      seen, frontier, found := WalkRound(g, start, direction, hop, seen, frontier, found);
      n := hop;
      if frontier == {} {
        break;
      }
    }
    lastSeen, lastFrontier := seen, frontier;
  }

  lemma FoundAtHop(g: Graph, links: Links, start: string, hop: nat, found0: seq<Found>, found: seq<Found>,
                   previous: set<string>, next: set<string>)
    requires 1 <= hop && ListedSoFar(g, hop, previous, found0, next, found)
    requires next == Ball(links, {start}, hop) - Ball(links, {start}, hop - 1)
    requires forall f | f in found0 :: FoundAt(g, links, start, f)
    requires previous == Newest(links, {start}, hop - 1)
    ensures forall f | f in found :: FoundAt(g, links, start, f)
  {
    forall f | f in found ensures FoundAt(g, links, start, f) {
      var i :| 0 <= i < |found| && found[i] == f;
      if i < |found0| {
        assert found0[i] == f;
      } else {
        NewIsFound(g, links, start, hop, found0, found, previous, next, i);
      }
    }
  }

  lemma NewIsFound(g: Graph, links: Links, start: string, hop: nat, found0: seq<Found>, found: seq<Found>,
                   previous: set<string>, next: set<string>, i: nat)
    requires 1 <= hop && ListedSoFar(g, hop, previous, found0, next, found) && |found0| <= i < |found|
    requires next == Ball(links, {start}, hop) - Ball(links, {start}, hop - 1)
    requires previous == Newest(links, {start}, hop - 1)
    ensures FoundAt(g, links, start, found[i])
  {
    NewIsNext(g, hop, previous, found0, next, found, i);
    BallDistance(links, {start}, found[i].symbol.id, hop);
    NewestLayer(links, start, hop);
    ReachedFromMore(g, previous, Ball(links, {start}, hop - 1), found[i]);
  }

  lemma NewIsNext(g: Graph, hop: nat, previous: set<string>, found0: seq<Found>, next: set<string>, found: seq<Found>,
                  i: nat)
    requires ListedSoFar(g, hop, previous, found0, next, found) && |found0| <= i < |found|
    ensures found[i].symbol.id in next
  {
    assert found[i] in found && found[i].symbol.id in IdsOf(found);
    forall j | 0 <= j < |found0| ensures found0[j].symbol.id != found[i].symbol.id {
      assert found[j] == found0[j];
    }
  }

  lemma NewestLayer(links: Links, start: string, hop: nat)
    requires 1 <= hop
    ensures Newest(links, {start}, hop - 1) <= Ball(links, {start}, hop - 1)
  {
  }

  lemma ReachedFromMore(g: Graph, a: set<string>, b: set<string>, f: Found)
    requires ReachedFrom(g, a, f) && a <= b
    ensures ReachedFrom(g, b, f)
  {
  }
}
