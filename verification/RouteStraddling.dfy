// When the address of a server in front of a path, or a query behind it, does matter: the
// exact condition on paths without a colon (code_graph/http_endpoints.py).
module RouteStraddling {
  import opened RouteNormal
  import opened RouteLaws
  import opened RouteStyles
  import opened RouteExact

  // An accepted address is ignored exactly when no expression begins before the query and
  // ends in it.
  lemma HostIgnoredExactly(scheme: string, host: string, p: string, rejects: string -> bool)
    requires scheme == "http://" || scheme == "https://"
    requires (forall c | c in host :: c !in "/?#\t\r\n") && (forall c | c in p :: c !in "\t\r\n") && "/" <= p
    requires !rejects(host) && ':' !in p
    ensures (var v := EndStripped(p);
             Normalize(scheme + host + p, rejects) == Normalize(p, rejects)
             <==> !Straddles(PathPart(v), v[|PathPart(v)|..]))
  {
    var v := EndStripped(p);
    HostStripped(scheme, host, p);
    RootedNormal(p, rejects);
    PrefixPlain(v, p);
    HostNormal(scheme, host, scheme + host + p, v, rejects);
    if Straddles(PathPart(v), v[|PathPart(v)|..]) {
      StraddlingDiffers(v);
    } else {
      PathCutTwice(v);
    }
  }

  // So are a query and a fragment.
  lemma QueryIgnoredExactly(q: string, tail: string, rejects: string -> bool)
    requires "/" <= q && NoQuery(q) && ':' !in q && !Loose(q[|q| - 1]) && tail != "" && tail[0] in "?#"
    ensures Normalize(q + tail, rejects) == Normalize(q, rejects) <==> !Straddles(q, EndStripped(tail))
  {
    RootedTight(q, rejects);
    TailStripped(q, tail, rejects);
    if Straddles(q, EndStripped(tail)) {
      ForkDiffers(q, EndStripped(tail));
    } else {
      QueryIgnored(q, tail, rejects);
    }
  }

  lemma StraddlingDiffers(v: string)
    requires "/" <= v && ':' !in v && Straddles(PathPart(v), v[|PathPart(v)|..])
    ensures FromPath(Cut(v)) != FromPath(v)
  {
    var q, t := PathPart(v), v[|PathPart(v)|..];
    assert v == q + t;
    PathPartIsCut(v);
    if t == "" {
      NothingStraddles(q, t);
      assert false;
    }
    assert NoQuery(q) && ':' !in q && "/" <= q;
    ForkDiffers(q, t);
  }

  lemma ForkDiffers(q: string, t: string)
    requires "/" <= q && NoQuery(q) && ':' !in q && Straddles(q, t) && t != "" && t[0] in "?#"
    ensures FromPath(q) != FromPath(q + t)
  {
    var h, x, r := TemplateFork(q, t);
    ForkFinished(q, t, h, x, r);
  }

  lemma ForkFinished(q: string, t: string, h: string, x: string, r: string)
    requires "/" <= q && NoQuery(q) && ':' !in q && Forks(q, t, h, x, r)
    ensures FromPath(q) != FromPath(q + t)
  {
    CutBoth(q, t, h, x, r);
    PlainBefore(q, t, h, x, r);
    FinishFork(h, x, Cut(r));
  }

  lemma CutBoth(q: string, t: string, h: string, x: string, r: string)
    requires "/" <= q && NoQuery(q) && Forks(q, t, h, x, r)
    ensures FromPath(q) == Finish(h + ("${" + x)) && FromPath(q + t) == Finish(h + (PARAM + Cut(r)))
  {
    CutOpen(q, h, x);
    CutClosed(q, q + t, h, r);
  }

  lemma PlainBefore(q: string, t: string, h: string, x: string, r: string)
    requires ':' !in q && Forks(q, t, h, x, r)
    ensures ':' !in h && '}' !in x
  {
  }

  // Where the first such expression begins, one text has the parameter and the other has
  // the beginning of the expression.
  ghost predicate Forks(q: string, t: string, h: string, x: string, r: string) {
    && TemplateSub(q) == h + ("${" + x) && TemplateSub(q + t) == h + (PARAM + r)
    && '}' !in x && (forall c | c in x :: c in q) && (forall c | c in h :: c in q || c in PARAM)
    && ("/" <= q ==> "/" <= h)
  }

  lemma {:induction false} TemplateFork(q: string, t: string) returns (h: string, x: string, r: string)
    requires Straddles(q, t) && t != "" && t[0] in "?#"
    ensures Forks(q, t, h, x, r)
    decreases |q|
  {
    if TemplateAhead(q + t) && 3 + Until((q + t)[2..], "}") > |q| {
      h, x, r := ForkHere(q, t);
    } else {
      AheadOfWhole(q, t);
      var end := if TemplateAhead(q) then 3 + Until(q[2..], "}") else 1;
      h, x, r := TemplateFork(q[end..], t);
      ForkBehind(q, t, end, h, x, r);
      h := (if TemplateAhead(q) then PARAM else [q[0]]) + h;
    }
  }

  lemma ForkHere(q: string, t: string) returns (h: string, x: string, r: string)
    requires q != "" && t != "" && t[0] in "?#" && TemplateAhead(q + t)
    requires 3 + Until((q + t)[2..], "}") > |q|
    ensures Forks(q, t, h, x, r)
  {
    OpenInside(q, t);
    var end := 3 + Until((q + t)[2..], "}");
    TemplateStep(q + t, end);
    h, x, r := "", q[2..], TemplateSub((q + t)[end..]);
    assert q == "${" + x && "" + ("${" + x) == "${" + x && "" + (PARAM + r) == PARAM + r;
  }

  lemma ForkBehind(q: string, t: string, end: nat, h: string, x: string, r: string)
    requires q != "" && TemplateAhead(q + t) == TemplateAhead(q)
    requires TemplateAhead(q) ==> Until((q + t)[2..], "}") == Until(q[2..], "}")
    requires end == (if TemplateAhead(q) then 3 + Until(q[2..], "}") else 1) && Forks(q[end..], t, h, x, r)
    ensures Forks(q, t, (if TemplateAhead(q) then PARAM else [q[0]]) + h, x, r)
  {
    var first := if TemplateAhead(q) then PARAM else [q[0]];
    DropAppend(q, t, end);
    TemplateStep(q, end);
    TemplateStep(q + t, end);
    Regroup(first, h, "${" + x);
    Regroup(first, h, PARAM + r);
    FirstChars(q, end, first, h);
  }

  lemma FirstChars(q: string, end: nat, first: string, h: string)
    requires end <= |q| && (forall c | c in h :: c in q[end..] || c in PARAM)
    requires q != "" && (first == PARAM || first == [q[0]])
    ensures forall c | c in first + h :: c in q || c in PARAM
  {
    forall c | c in first + h ensures c in q || c in PARAM {
      assert c in first || c in h;
    }
  }

  // An expression that begins the text and does not end in it is kept.
  lemma OpenInside(q: string, t: string)
    requires q != "" && t != "" && t[0] in "?#" && TemplateAhead(q + t)
    requires 3 + Until((q + t)[2..], "}") > |q|
    ensures "${" <= q && '}' !in q && TemplateSub(q) == q
  {
    assert (q + t)[|q|] == t[0];
    assert (q + t)[1] == '{';
    forall i | 0 <= i < |q| ensures q[i] != '}' {
      if i >= 2 {
        BeforeUntil((q + t)[2..], "}", i - 2);
        assert (q + t)[2..][i - 2] == q[i];
      } else {
        assert q[i] == (q + t)[i];
      }
    }
    NoBraceNoTemplate(q);
    TemplateSubNone(q);
  }

  lemma {:induction false} BeforeUntil(s: string, stop: string, i: nat)
    requires i < Until(s, stop) <= |s|
    ensures s[i] !in stop
  {
    if i > 0 {
      BeforeUntil(s[1..], stop, i - 1);
    }
  }

  lemma CutOpen(q: string, h: string, x: string)
    requires "/" <= h && NoQuery(q) && TemplateSub(q) == h + ("${" + x)
    requires (forall c | c in x :: c in q) && (forall c | c in h :: c in q || c in PARAM)
    ensures FromPath(q) == Finish(h + ("${" + x))
  {
    forall c | c in h + ("${" + x) ensures c in q || c in "{param}$" {
      assert c in h || c in "${" || c in x;
    }
    CutNothing(TemplateSub(q));
    FromCut(q, h + ("${" + x));
  }

  lemma CutClosed(q: string, v: string, h: string, r: string)
    requires "/" <= h && NoQuery(q) && (forall c | c in h :: c in q || c in PARAM)
    requires TemplateSub(v) == h + (PARAM + r)
    ensures FromPath(v) == Finish(h + (PARAM + Cut(r)))
  {
    Regroup(h, PARAM, r);
    Regroup(h, PARAM, Cut(r));
    ParamNoQuery(q, h);
    CutAfter(h + PARAM, r);
    FromCut(v, h + (PARAM + Cut(r)));
  }

  lemma ParamNoQuery(q: string, h: string)
    requires NoQuery(q) && forall c | c in h :: c in q || c in PARAM
    ensures NoQuery(h + PARAM)
  {
  }

  lemma FromCut(v: string, c: string)
    requires "/" <= c && Cut(TemplateSub(v)) == c
    ensures FromPath(v) == Finish(c)
  {
    RootedKept(c);
  }

  lemma RootedKept(s: string)
    requires "/" <= s
    ensures Rooted(DropBase(s)) == s
  {
    assert Until(s, "/") == 0;
  }

  // What follows the place does not change what comes before it.
  lemma FinishFork(h: string, x: string, r: string)
    requires ':' !in h && '}' !in x
    ensures Finish(h + ("${" + x)) != Finish(h + (PARAM + r))
  {
    var g, w1, w2 := Collapse(h), Collapse("${" + x), Collapse(PARAM + r);
    CollapseAppend(h, "${" + x);
    CollapseAppend(h, PARAM + r);
    CollapseAppend("${", x);
    CollapseAppend(PARAM, r);
    CollapsedMarks();
    CollapseKeeps(h);
    CollapseKeeps(x);
    forall c | c in w1 ensures c != '}' {
      assert c in "${" || c in Collapse(x);
    }
    var i := PathFork(g, w1, w2, '\0');
    TrimKeeps(PathSub(g + w1, '\0'), i);
    TrimKeeps(PathSub(g + w2, '\0'), i);
  }

  lemma CollapsedMarks()
    ensures Collapse("${") == "${" && Collapse(PARAM) == PARAM
  {
    CollapseFixed("${");
    CollapseFixed(PARAM);
  }

  lemma {:induction false} CollapseKeeps(s: string)
    ensures forall c | c in Collapse(s) :: c in s
  {
    if s != "" {
      CollapseKeeps(s[1..]);
    }
  }

  // The first text has a dollar sign where the second one has a brace.
  ghost predicate ForksAt(a: string, b: string, i: nat) {
    i < |a| && i < |b| && a[i] == '$' && b[i] == '{'
  }

  lemma {:induction false} PathFork(g: string, w1: string, w2: string, previous: char) returns (i: nat)
    requires ':' !in g && w1 != "" && w1[0] == '$' && '}' !in w1 && PARAM <= w2
    ensures ForksAt(PathSub(g + w1, previous), PathSub(g + w2, previous), i)
    decreases |g|
  {
    if g == "" {
      assert g + w1 == w1 && g + w2 == w2;
      PathForkHere(w1, w2, previous);
      i := 0;
    } else {
      BracesWithin(g, w1, w2);
      var end, last := if BraceAhead(g) then 2 + Until(g[1..], "/{}") else 1, if BraceAhead(g) then '}' else g[0];
      i := PathFork(g[end..], w1, w2, last);
      PathForkBehind(g, w1, w2, previous, end, last, i);
      i := i + if BraceAhead(g) then |PARAM| else 1;
    }
  }

  lemma PathForkHere(w1: string, w2: string, previous: char)
    requires w1 != "" && w1[0] == '$' && PARAM <= w2
    ensures ForksAt(PathSub(w1, previous), PathSub(w2, previous), 0)
  {
  }

  lemma BracesWithin(g: string, w1: string, w2: string)
    requires g != "" && w1 != "" && '}' !in w1 && PARAM <= w2
    ensures BraceAhead(g + w1) == BraceAhead(g) == BraceAhead(g + w2)
    ensures BraceAhead(g) ==>
        Until((g + w1)[1..], "/{}") == Until(g[1..], "/{}") == Until((g + w2)[1..], "/{}")
    ensures BraceAhead(g) ==> 2 + Until(g[1..], "/{}") <= |g|
  {
    BraceWithin(g, w1);
    BraceWithin(g, w2);
  }

  lemma PathForkBehind(g: string, w1: string, w2: string, previous: char, end: nat, last: char, i: nat)
    requires g != "" && g[0] != ':' && BraceAhead(g + w1) == BraceAhead(g) == BraceAhead(g + w2)
    requires BraceAhead(g) ==>
        Until((g + w1)[1..], "/{}") == Until(g[1..], "/{}") == Until((g + w2)[1..], "/{}")
    requires end == if BraceAhead(g) then 2 + Until(g[1..], "/{}") else 1
    requires end <= |g| && last == if BraceAhead(g) then '}' else g[0]
    requires ForksAt(PathSub(g[end..] + w1, last), PathSub(g[end..] + w2, last), i)
    ensures ForksAt(PathSub(g + w1, previous), PathSub(g + w2, previous), i + if BraceAhead(g) then |PARAM| else 1)
  {
    PathStep(g, w1, previous, end);
    PathStep(g, w2, previous, end);
    ForksBehind(if BraceAhead(g) then PARAM else [g[0]], PathSub(g[end..] + w1, last), PathSub(g[end..] + w2, last),
                i);
  }

  lemma ForksBehind(first: string, a: string, b: string, i: nat)
    requires ForksAt(a, b, i)
    ensures ForksAt(first + a, first + b, i + |first|)
  {
  }

  lemma PathStep(g: string, w: string, previous: char, end: nat)
    requires g != "" && g[0] != ':' && BraceAhead(g + w) == BraceAhead(g)
    requires BraceAhead(g) ==> Until((g + w)[1..], "/{}") == Until(g[1..], "/{}")
    requires end == if BraceAhead(g) then 2 + Until(g[1..], "/{}") else 1
    ensures end <= |g|
    ensures PathSub(g + w, previous)
         == (if BraceAhead(g) then PARAM else [g[0]]) + PathSub(g[end..] + w, if BraceAhead(g) then '}' else g[0])
  {
    DropAppend(g, w, end);
    assert (g + w)[0] == g[0];
  }

  lemma BraceWithin(g: string, w: string)
    requires g != "" && w != "" && (w[0] == '{' || '}' !in w)
    ensures BraceAhead(g + w) == BraceAhead(g)
    ensures BraceAhead(g) ==> Until((g + w)[1..], "/{}") == Until(g[1..], "/{}")
  {
    assert (g + w)[1..] == g[1..] + w;
    if Until(g[1..], "/{}") < |g[1..]| {
      UntilAppend(g[1..], w, "/{}");
    } else {
      NoneBefore(g[1..], "/{}");
      UntilAfter(g[1..], w, "/{}");
      BraceBeyond(g, w);
    }
  }

  lemma NoneBefore(s: string, stop: string)
    requires Until(s, stop) == |s|
    ensures forall c | c in s :: c !in stop
  {
    forall i | 0 <= i < |s| ensures s[i] !in stop {
      BeforeUntil(s, stop, i);
    }
  }

  // The first mark behind g is not a closing brace.
  lemma BraceBeyond(g: string, w: string)
    requires g != "" && w != "" && (w[0] == '{' || '}' !in w)
    requires Until((g + w)[1..], "/{}") == |g| - 1 + Until(w, "/{}")
    ensures !BraceAhead(g + w)
  {
    var n := Until(w, "/{}");
    if n < |w| {
      assert (g + w)[|g| + n] == w[n] != '}';
    }
  }

  lemma {:induction false} TrimKeeps(s: string, i: nat)
    requires i < |s| && s[i] != '/'
    ensures i < |TrimSlashes(s)| && TrimSlashes(s) <= s
  {
    if s[|s| - 1] == '/' {
      TrimKeeps(s[..|s| - 1], i);
    }
  }
}
