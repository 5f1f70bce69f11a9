// Links between ids, walks along them, and what lies within n steps.
module Walks {

  type Links = set<(string, string)>

  ghost predicate Walk(links: Links, p: seq<string>) {
    forall i | 0 <= i < |p| - 1 :: (p[i], p[i + 1]) in links
  }

  // Some walk of exactly n steps leads from a source to x.
  ghost predicate Arrives(links: Links, sources: set<string>, x: string, n: nat) {
    exists p :: |p| == n + 1 && p[0] in sources && p[n] == x && Walk(links, p)
  }

  // The shortest walk from a source to x has n steps.
  ghost predicate IsDistance(links: Links, sources: set<string>, x: string, n: nat) {
    Arrives(links, sources, x, n) && forall m | Arrives(links, sources, x, m) :: n <= m
  }

  ghost predicate IsReachable(links: Links, sources: set<string>, x: string) {
    exists n :: Arrives(links, sources, x, n)
  }

  // A path from a source to x, each step of which is allowed.
  ghost predicate Path(step: (string, string) -> bool, sources: set<string>, p: seq<string>, x: string) {
    p != [] && p[0] in sources && p[|p| - 1] == x && forall i | 0 <= i < |p| - 1 :: StepAt(step, p, i)
  }

  ghost predicate StepAt(step: (string, string) -> bool, p: seq<string>, i: nat)
    requires i + 1 < |p|
  {
    step(p[i], p[i + 1])
  }

  // The shortest of these paths has n steps.
  ghost predicate ShortestPath(step: (string, string) -> bool, sources: set<string>, x: string, n: nat) {
    && (exists p :: |p| == n + 1 && Path(step, sources, p, x))
    && forall p | Path(step, sources, p, x) :: n + 1 <= |p|
  }

  ghost predicate LinksAre(links: Links, step: (string, string) -> bool) {
    forall a, b :: (a, b) in links <==> step(a, b)
  }

  lemma WalkIsPath(links: Links, step: (string, string) -> bool, sources: set<string>, p: seq<string>, x: string)
    requires LinksAre(links, step) && p != []
    ensures Path(step, sources, p, x) <==> p[0] in sources && p[|p| - 1] == x && Walk(links, p)
  {
    forall i | 0 <= i < |p| - 1 ensures StepAt(step, p, i) <==> (p[i], p[i + 1]) in links {}
  }

  lemma ArrivesIsPath(links: Links, step: (string, string) -> bool, sources: set<string>, x: string, n: nat)
    requires LinksAre(links, step)
    ensures Arrives(links, sources, x, n) <==> exists p :: |p| == n + 1 && Path(step, sources, p, x)
  {
    if Arrives(links, sources, x, n) {
      var p :| |p| == n + 1 && p[0] in sources && p[n] == x && Walk(links, p);
      WalkIsPath(links, step, sources, p, x);
    }
    if p :| |p| == n + 1 && Path(step, sources, p, x) {
      WalkIsPath(links, step, sources, p, x);
      assert p[n] == x;
    }
  }

  lemma DistanceIsPath(links: Links, step: (string, string) -> bool, sources: set<string>, x: string, n: nat)
    requires LinksAre(links, step)
    ensures IsDistance(links, sources, x, n) <==> ShortestPath(step, sources, x, n)
  {
    ArrivesIsPath(links, step, sources, x, n);
    if IsDistance(links, sources, x, n) {
      forall p | Path(step, sources, p, x) ensures n + 1 <= |p| {
        ArrivesIsPath(links, step, sources, x, |p| - 1);
      }
    }
    if ShortestPath(step, sources, x, n) {
      forall m | Arrives(links, sources, x, m) ensures n <= m {
        ArrivesIsPath(links, step, sources, x, m);
      }
    }
  }

  lemma ReachableIsPath(links: Links, step: (string, string) -> bool, sources: set<string>, x: string)
    requires LinksAre(links, step)
    ensures IsReachable(links, sources, x) <==> exists p :: Path(step, sources, p, x)
  {
    if IsReachable(links, sources, x) {
      var n :| Arrives(links, sources, x, n);
      ArrivesIsPath(links, step, sources, x, n);
    }
    if p :| Path(step, sources, p, x) {
      ArrivesIsPath(links, step, sources, x, |p| - 1);
    }
  }

  function Successors(links: Links, from: set<string>): set<string> {
    set l | l in links && l.0 in from :: l.1
  }

  // Everything within n steps of the sources.
  function Ball(links: Links, sources: set<string>, n: nat): set<string> {
    if n == 0 then sources else Ball(links, sources, n - 1) + Successors(links, Ball(links, sources, n - 1))
  }

  lemma ArrivesStep(links: Links, sources: set<string>, x: string, y: string, n: nat)
    requires Arrives(links, sources, x, n) && (x, y) in links
    ensures Arrives(links, sources, y, n + 1)
  {
    var p :| |p| == n + 1 && p[0] in sources && p[n] == x && Walk(links, p);
    var q := p + [y];
    assert Walk(links, q);
    assert |q| == n + 1 + 1 && q[n + 1] == y && q[0] in sources;
  }

  lemma ArrivesStart(links: Links, sources: set<string>, x: string)
    requires x in sources
    ensures Arrives(links, sources, x, 0)
  {
    assert Walk(links, [x]) && [x][0] == x;
  }

  lemma ArrivesBack(links: Links, sources: set<string>, x: string, n: nat) returns (w: string)
    requires n > 0 && Arrives(links, sources, x, n)
    ensures Arrives(links, sources, w, n - 1) && (w, x) in links
  {
    var p :| |p| == n + 1 && p[0] in sources && p[n] == x && Walk(links, p);
    w := p[n - 1];
    assert (p[n - 1], p[n - 1 + 1]) in links;
    assert Walk(links, p[..n]);
    assert |p[..n]| == n - 1 + 1 && p[..n][n - 1] == w && p[..n][0] in sources;
  }

  lemma {:induction false} BallGrows(links: Links, sources: set<string>, m: nat, n: nat)
    requires m <= n
    ensures Ball(links, sources, m) <= Ball(links, sources, n)
  {
    if m < n {
      BallGrows(links, sources, m, n - 1);
    }
  }

  lemma {:induction false} BallIsWalks(links: Links, sources: set<string>, x: string, n: nat)
    ensures x in Ball(links, sources, n) <==> exists m: nat | m <= n :: Arrives(links, sources, x, m)
    decreases n
  {
    if x in Ball(links, sources, n) {
      if n == 0 || x in sources {
        ArrivesStart(links, sources, x);
      } else if x in Ball(links, sources, n - 1) {
        BallIsWalks(links, sources, x, n - 1);
      } else {
        var l :| l in links && l.0 in Ball(links, sources, n - 1) && l.1 == x;
        BallIsWalks(links, sources, l.0, n - 1);
        var m: nat :| m <= n - 1 && Arrives(links, sources, l.0, m);
        ArrivesStep(links, sources, l.0, x, m);
      }
    }
    if m: nat :| m <= n && Arrives(links, sources, x, m) {
      InBall(links, sources, x, m);
      BallGrows(links, sources, m, n);
    }
  }

  lemma {:induction false} InBall(links: Links, sources: set<string>, x: string, n: nat)
    requires Arrives(links, sources, x, n)
    ensures x in Ball(links, sources, n)
    decreases n
  {
    if n > 0 {
      var w := ArrivesBack(links, sources, x, n);
      InBall(links, sources, w, n - 1);
    }
  }

  // The distance is the first ball that contains x.
  lemma BallDistance(links: Links, sources: set<string>, x: string, n: nat)
    ensures IsDistance(links, sources, x, n)
       <==> x in Ball(links, sources, n) && (n == 0 || x !in Ball(links, sources, n - 1))
  {
    BallIsWalks(links, sources, x, n);
    if n > 0 {
      BallIsWalks(links, sources, x, n - 1);
    }
    if IsDistance(links, sources, x, n) {
      InBall(links, sources, x, n);
    }
    if x in Ball(links, sources, n) && (n == 0 || x !in Ball(links, sources, n - 1)) {
      var m: nat :| m <= n && Arrives(links, sources, x, m);
      assert m == n;
    }
  }

  function BallsOf(links: Links, sources: set<string>): nat -> set<string> {
    (n: nat) => Ball(links, sources, n)
  }

  function Grow(links: Links): set<string> -> set<string> {
    (from: set<string>) => from + Successors(links, from)
  }

  lemma BallGrowth(links: Links, sources: set<string>)
    ensures forall k: nat :: BallsOf(links, sources)(k + 1) == Grow(links)(BallsOf(links, sources)(k))
  {
  }

  // An iteration that stops moving has stopped for good.
  lemma {:induction false} FixedForGood(b: nat -> set<string>, g: set<string> -> set<string>, m: nat, n: nat)
    requires m <= n && b(m + 1) == b(m) && forall k: nat :: b(k + 1) == g(b(k))
    ensures b(n) == b(m)
    decreases n
  {
    if m < n {
      FixedForGood(b, g, m, n - 1);
      assert b((n - 1) + 1) == g(b(n - 1)) && b(m + 1) == g(b(m));
    }
  }

  // Once a ball stops growing it has all there is.
  lemma BallStable(links: Links, sources: set<string>, m: nat, n: nat)
    requires m <= n && Ball(links, sources, m + 1) == Ball(links, sources, m)
    ensures Ball(links, sources, n) == Ball(links, sources, m)
  {
    BallGrowth(links, sources);
    FixedForGood(BallsOf(links, sources), Grow(links), m, n);
    assert BallsOf(links, sources)(n) == BallsOf(links, sources)(m);
  }
}
