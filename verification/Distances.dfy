// Distances from the changed symbols (code_graph/snapshot.py, _distances).
module Distances {
  import opened CodeGraph
  import opened Walks

  // A `references` edge, followed against its direction when looking for callers.
  function Oriented(e: Edge, reverse: bool): (string, string) {
    if reverse then (e.toId, e.fromId) else (e.fromId, e.toId)
  }

  function ReferenceLinks(edges: seq<Edge>, reverse: bool): Links {
    set e | e in edges && e.kind == References :: Oriented(e, reverse)
  }

  // A symbol refers to the next one, or the other way round.
  predicate Refers(edges: seq<Edge>, a: string, b: string) {
    exists e | e in edges :: e.kind == References && e.fromId == a && e.toId == b
  }

  function RefersStep(edges: seq<Edge>, reverse: bool): (string, string) -> bool {
    (a: string, b: string) => if reverse then Refers(edges, b, a) else Refers(edges, a, b)
  }

  lemma LinksRefer(edges: seq<Edge>, reverse: bool)
    ensures LinksAre(ReferenceLinks(edges, reverse), RefersStep(edges, reverse))
  {
    forall a, b ensures (a, b) in ReferenceLinks(edges, reverse) <==> RefersStep(edges, reverse)(a, b) {
      if e :| e in edges && e.kind == References && (if reverse then e == Edge(b, a, References)
                                                     else e == Edge(a, b, References)) {
        assert Oriented(e, reverse) == (a, b);
      }
    }
  }

  // Exactly the symbols some chain of references leads to, each with the length of a
  // shortest one.
  ghost predicate DistancesExact(distances: map<string, nat>, edges: seq<Edge>, changed: set<string>, reverse: bool) {
    && (forall x :: x in distances <==> exists p :: Path(RefersStep(edges, reverse), changed, p, x))
    && (forall x | x in distances :: ShortestPath(RefersStep(edges, reverse), changed, x, distances[x]))
  }

  lemma DistancesAlongPaths(distances: map<string, nat>, edges: seq<Edge>, changed: set<string>, reverse: bool)
    requires forall x :: x in distances <==> IsReachable(ReferenceLinks(edges, reverse), changed, x)
    requires forall x | x in distances :: IsDistance(ReferenceLinks(edges, reverse), changed, x, distances[x])
    ensures DistancesExact(distances, edges, changed, reverse)
  {
    var links, step := ReferenceLinks(edges, reverse), RefersStep(edges, reverse);
    LinksRefer(edges, reverse);
    forall x ensures x in distances <==> exists p :: Path(step, changed, p, x) {
      ReachableIsPath(links, step, changed, x);
    }
    forall x | x in distances ensures ShortestPath(step, changed, x, distances[x]) {
      DistanceIsPath(links, step, changed, x, distances[x]);
    }
  }

  method Adjacency(edges: seq<Edge>, reverse: bool) returns (adjacency: map<string, seq<string>>)
    ensures forall a, b :: (a in adjacency && b in adjacency[a]) <==> (a, b) in ReferenceLinks(edges, reverse)
  {
    adjacency := map[];
    for i := 0 to |edges|
      invariant forall a, b :: (a in adjacency && b in adjacency[a]) <==> (a, b) in ReferenceLinks(edges[..i], reverse)
    {
      LinksTake(edges, reverse, i);
      if edges[i].kind == References {
        var link := Oriented(edges[i], reverse);
        var others := if link.0 in adjacency then adjacency[link.0] else [];
        adjacency := adjacency[link.0 := others + [link.1]];
      }
    }
    assert edges[..|edges|] == edges;
  }

  lemma LinksTake(edges: seq<Edge>, reverse: bool, i: nat)
    requires i < |edges|
    ensures ReferenceLinks(edges[..i + 1], reverse)
         == ReferenceLinks(edges[..i], reverse)
            + if edges[i].kind == References then {Oriented(edges[i], reverse)} else {}
  {
    assert edges[..i + 1] == edges[..i] + [edges[i]];
  }

  // ---- The breadth-first invariant ------------------------------------------------

  // Every recorded distance is the length of some walk.
  ghost predicate Sound(links: Links, sources: set<string>, distances: map<string, nat>) {
    forall x | x in distances :: Arrives(links, sources, x, distances[x])
  }

  ghost predicate Settled(links: Links, distances: map<string, nat>, x: string) {
    x in distances && forall y | (x, y) in links :: y in distances && distances[y] <= distances[x] + 1
  }

  // The queue is ordered by distance, and nothing is more than a step past its head.
  ghost predicate Ordered(distances: map<string, nat>, queue: seq<string>) {
    && (forall x | x in queue :: x in distances)
    && (forall i, j | 0 <= i < j < |queue| :: distances[queue[i]] <= distances[queue[j]])
    && (queue != [] ==> forall x | x in distances :: distances[x] <= distances[queue[0]] + 1)
  }

  ghost predicate Frontier(links: Links, distances: map<string, nat>, queue: seq<string>) {
    forall x | x in distances :: x in queue || Settled(links, distances, x)
  }

  lemma {:induction false} SettledIsClosed(links: Links, sources: set<string>, distances: map<string, nat>, x: string,
                                           n: nat)
    requires sources <= distances.Keys && (forall s | s in sources :: distances[s] == 0)
    requires Frontier(links, distances, []) && Arrives(links, sources, x, n)
    ensures x in distances && distances[x] <= n
    decreases n
  {
    if n > 0 {
      var w := ArrivesBack(links, sources, x, n);
      SettledIsClosed(links, sources, distances, w, n - 1);
      assert Settled(links, distances, w);
    }
  }

  // The search itself, along the links.
  method Search(edges: seq<Edge>, changed: set<string>, reverse: bool) returns (distances: map<string, nat>)
    ensures forall x :: x in distances <==> IsReachable(ReferenceLinks(edges, reverse), changed, x)
    ensures forall x | x in distances :: IsDistance(ReferenceLinks(edges, reverse), changed, x, distances[x])
  {
    ghost var links := ReferenceLinks(edges, reverse);
    ghost var universe := changed + set l | l in links :: l.1;
    var adjacency := Adjacency(edges, reverse);
    distances := map x | x in changed :: 0;
    var queue := Enumerate(changed);
    forall x | x in changed ensures Arrives(links, changed, x, 0) {
      ArrivesStart(links, changed, x);
    }
    while queue != []
      invariant changed <= distances.Keys <= universe && forall s | s in changed :: distances[s] == 0
      invariant Sound(links, changed, distances) && Ordered(distances, queue) && Frontier(links, distances, queue)
      decreases |universe - distances.Keys|, |queue|
    {
      var current := queue[0];
      var neighbors := if current in adjacency then adjacency[current] else [];
      assert forall y :: y in neighbors <==> (current, y) in links;
      distances, queue := SettleHead(links, changed, universe, distances, queue, neighbors);
    }
    forall x, n | Arrives(links, changed, x, n) ensures x in distances && distances[x] <= n {
      SettledIsClosed(links, changed, distances, x, n);
    }
  }

  // _distances
  method Distances(edges: seq<Edge>, changed: set<string>, reverse: bool) returns (distances: map<string, nat>)
    ensures DistancesExact(distances, edges, changed, reverse)
  {
    distances := Search(edges, changed, reverse);
    DistancesAlongPaths(distances, edges, changed, reverse);
  }

  // One turn of the loop: the head of the queue is settled.
  method SettleHead(ghost links: Links, ghost sources: set<string>, ghost universe: set<string>,
                    distances0: map<string, nat>, queue0: seq<string>, neighbors: seq<string>)
    returns (distances: map<string, nat>, queue: seq<string>)
    requires queue0 != [] && distances0.Keys <= universe
    requires forall y :: y in neighbors <==> (queue0[0], y) in links
    requires forall y | y in neighbors :: y in universe
    requires Sound(links, sources, distances0) && Ordered(distances0, queue0) && Frontier(links, distances0, queue0)
    ensures distances.Keys <= universe && forall x | x in distances0 :: x in distances && distances[x] == distances0[x]
    ensures Sound(links, sources, distances) && Ordered(distances, queue) && Frontier(links, distances, queue)
    ensures (distances == distances0 && |queue| < |queue0|)
        || |universe - distances.Keys| < |universe - distances0.Keys|
  {
    HeadFirst(links, sources, distances0, queue0);
    distances, queue := VisitNeighbors(links, sources, queue0[0], distances0, queue0[1..], neighbors);
    HeadSettled(links, distances0, queue0, distances, queue);
    LessToDo(universe, distances0, queue0, distances, queue, neighbors);
  }

  lemma HeadFirst(links: Links, sources: set<string>, distances: map<string, nat>, queue: seq<string>)
    requires queue != [] && Sound(links, sources, distances) && Ordered(distances, queue)
    ensures Visiting(links, sources, distances, queue[1..], queue[0], distances, queue[1..])
  {
    assert queue == [queue[0]] + queue[1..];
  }

  // Either nothing is new and the queue is shorter, or more of the universe is recorded.
  lemma LessToDo(universe: set<string>, distances0: map<string, nat>, queue0: seq<string>, distances: map<string, nat>,
                 queue: seq<string>, neighbors: seq<string>)
    requires queue0 != [] && distances0.Keys <= universe && Extends(distances0, queue0[1..], distances, queue)
    requires (forall y | y in neighbors :: y in universe)
        && forall x | x in distances :: x in distances0 || x in neighbors
    ensures distances.Keys <= universe && forall x | x in distances0 :: x in distances && distances[x] == distances0[x]
    ensures (distances == distances0 && |queue| < |queue0|)
        || |universe - distances.Keys| < |universe - distances0.Keys|
  {
    forall x | x in distances ensures x in universe {
      assert x in distances0 || x in neighbors;
    }
    if distances.Keys == distances0.Keys {
      assert distances == distances0;
    } else {
      FewerLeft(universe, distances0.Keys, distances.Keys);
    }
  }

  // for neighbor in adjacency.get(current, [])
  method VisitNeighbors(ghost links: Links, ghost sources: set<string>, current: string,
                        distances0: map<string, nat>, queue0: seq<string>, neighbors: seq<string>)
    returns (distances: map<string, nat>, queue: seq<string>)
    requires Visiting(links, sources, distances0, queue0, current, distances0, queue0)
    requires forall y | y in neighbors :: (current, y) in links
    ensures Visiting(links, sources, distances0, queue0, current, distances, queue)
    ensures forall y | y in neighbors :: y in distances
    ensures forall x | x in distances :: x in distances0 || x in neighbors
  {
    distances, queue := distances0, queue0;
    for i := 0 to |neighbors|
      invariant Visiting(links, sources, distances0, queue0, current, distances, queue)
      invariant forall y | y in neighbors[..i] :: y in distances
      invariant forall x | x in distances :: x in distances0 || x in neighbors
    {
      if neighbors[i] !in distances {
        Discover(links, sources, distances0, queue0, current, distances, queue, neighbors[i]);
        distances, queue := distances[neighbors[i] := distances[current] + 1], queue + [neighbors[i]];
      }
    }
  }

  // What is new is in the queue, and nothing recorded is changed.
  ghost predicate Extends(distances0: map<string, nat>, queue0: seq<string>, distances: map<string, nat>,
                          queue: seq<string>)
  {
    && distances0.Keys <= distances.Keys
    && (forall x | x in distances0 :: distances[x] == distances0[x])
    && (forall x | x in queue0 :: x in queue)
    && (forall x | x in distances && x !in distances0 :: x in queue)
    && (distances.Keys == distances0.Keys ==> queue == queue0)
  }

  ghost predicate Visiting(links: Links, sources: set<string>, distances0: map<string, nat>, queue0: seq<string>,
                           current: string, distances: map<string, nat>, queue: seq<string>)
  {
    && Sound(links, sources, distances) && Ordered(distances, [current] + queue)
    && Extends(distances0, queue0, distances, queue) && current in distances
  }

  lemma Discover(links: Links, sources: set<string>, distances0: map<string, nat>, queue0: seq<string>,
                 current: string, distances: map<string, nat>, queue: seq<string>, x: string)
    requires Visiting(links, sources, distances0, queue0, current, distances, queue)
    requires x !in distances && (current, x) in links
    ensures Visiting(links, sources, distances0, queue0, current, distances[x := distances[current] + 1], queue + [x])
  {
    assert ([current] + queue)[0] == current;
    ArrivesStep(links, sources, current, x, distances[current]);
    Enqueue(distances, [current] + queue, x);
    assert [current] + queue + [x] == [current] + (queue + [x]);
  }

  lemma FewerLeft(universe: set<string>, a: set<string>, b: set<string>)
    requires a < b <= universe
    ensures |universe - b| < |universe - a|
  {
    var x :| x in b && x !in a;
    assert universe - b <= universe - a - {x};
    SubsetSize(universe - b, universe - a - {x});
  }

  lemma {:induction false} SubsetSize(a: set<string>, b: set<string>)
    requires a <= b
    ensures |a| <= |b|
  {
    if a != {} {
      var x :| x in a;
      SubsetSize(a - {x}, b - {x});
    }
  }

  lemma Enqueue(distances: map<string, nat>, queue: seq<string>, x: string)
    requires Ordered(distances, queue) && queue != [] && x !in distances
    ensures Ordered(distances[x := distances[queue[0]] + 1], queue + [x])
  {
  }

  lemma HeadSettled(links: Links, distances0: map<string, nat>, queue0: seq<string>,
                    distances: map<string, nat>, queue: seq<string>)
    requires queue0 != [] && Frontier(links, distances0, queue0) && Ordered(distances, [queue0[0]] + queue)
    requires Extends(distances0, queue0[1..], distances, queue)
    requires forall y | (queue0[0], y) in links :: y in distances
    ensures Frontier(links, distances, queue) && Ordered(distances, queue)
  {
    var all := [queue0[0]] + queue;
    assert all[0] == queue0[0] && queue == all[1..];
    forall x | x in distances ensures x in queue || Settled(links, distances, x) {
      if x !in queue && x != queue0[0] {
        assert x in distances0 && x !in queue0;
        assert Settled(links, distances0, x);
      }
    }
    assert forall i | 0 <= i < |queue| :: queue[i] == all[i + 1];
  }

  // deque(changed_ids): the ids of a set, in some order
  method Enumerate(ids: set<string>) returns (list: seq<string>)
    ensures forall x :: x in list <==> x in ids
  {
    list := [];
    var rest := ids;
    while rest != {}
      invariant rest <= ids
      invariant forall x :: x in list <==> x in ids && x !in rest
      decreases |rest|
    {
      var x :| x in rest;
      list := list + [x];
      rest := rest - {x};
    }
  }
}
