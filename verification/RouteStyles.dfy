// Routes written for different frameworks meet in one normal form
// (code_graph/http_endpoints.py).
module RouteStyles {
  import opened Lists
  import opened PyText
  import opened RouteNormal
  import opened RouteLaws

  ghost predicate PlainText(s: string) {
    CleanText(s) && NoQuery(s)
  }

  ghost predicate ParameterName(name: string) {
    name != "" && '/' !in name && '{' !in name && '}' !in name
  }

  // The two ways to mark a path parameter in a declared route.
  ghost predicate Mark(m: string, name: string) {
    ParameterName(name) && (m == ":" + name || m == "{" + name + "}")
  }

  predicate Directory(p: string) {
    p != "" && p[|p| - 1] == '/'
  }

  predicate Segments(t: string) {
    t == "" || "/" <= t
  }

  lemma PlainNormal(route: string, rejects: string -> bool)
    requires "/" <= route && PlainText(route)
    ensures Normalize(route, rejects) == Some(Finish(route))
  {
    NormalizeRooted(route, rejects);
    StripRooted(route);
    assert route[|route| - 1] in route;
    CleanHasNoTemplate(route);
    TemplateSubNone(route);
  }

  // ---- Templates -----------------------------------------------------------------------

  lemma {:induction false} TemplateSubAppend(p: string, u: string)
    requires '$' !in p
    ensures TemplateSub(p + u) == p + TemplateSub(u)
    decreases |p|
  {
    if p == "" {
      assert p + u == u;
    } else {
      assert (p + u)[0] == p[0] && p[0] in p;
      assert (p + u)[1..] == p[1..] + u;
      assert "${"[0] == '$';
      TemplateSubAppend(p[1..], u);
    }
  }

  lemma TemplateMark(name: string, t: string)
    requires ParameterName(name) && PlainText(name) && '$' !in t
    ensures TemplateSub("${" + name + "}" + t) == PARAM + t
  {
    var s := "${" + name + "}" + t;
    assert s[2..] == name + "}" + t;
    assert s[2..][|name|] == '}';
    assert forall i | 0 <= i < |name| :: s[2..][i] == name[i] && name[i] in name;
    UntilAt(s[2..], "}", |name|);
    assert s[3 + |name|..] == t;
    CleanHasNoTemplate(t);
    TemplateSubNone(t);
  }

  // ---- Splitting the final pass at a segment boundary ---------------------------------------

  lemma {:induction false} CollapseAppend(a: string, b: string)
    requires a == "" || b == "" || a[|a| - 1] != '/' || b[0] != '/'
    ensures Collapse(a + b) == Collapse(a) + Collapse(b)
    decreases |a|
  {
    if a == "" {
      assert a + b == b;
    } else {
      assert (a + b)[1..] == a[1..] + b;
      CollapseAppend(a[1..], b);
    }
  }

  lemma {:induction false} CollapseLast(p: string)
    requires Directory(p)
    ensures Directory(Collapse(p))
    decreases |p|
  {
    if |p| > 1 {
      CollapseLast(p[1..]);
    }
  }

  lemma {:induction false} UntilAppend(p: string, u: string, stop: string)
    requires Until(p, stop) < |p|
    ensures Until(p + u, stop) == Until(p, stop)
  {
    UntilAt(p + u, stop, Until(p, stop));
  }

  lemma UntilLast(p: string, stop: string)
    requires p != "" && p[|p| - 1] in stop
    ensures Until(p, stop) < |p|
  {
  }

  // A directory part and what follows it are rewritten independently.
  lemma {:induction false} PathSubSplit(p: string, u: string, previous: char)
    requires Directory(p)
    ensures Splits(p, u, previous)
    decreases |p|
  {
    if |p| == 1 {
      SlashSplits(p, u, previous);
    } else if ColonAhead(p, previous) {
      ColonSplit(p, u, previous);
      var end := Until(p, "/");
      PathSubSplit(p[end..], u, p[end - 1]);
      SplitFrom(p, u, previous, PARAM, p[end..], p[end - 1]);
    } else if BraceAhead(p) {
      BraceStep(p, u, previous);
      var end := 2 + Until(p[1..], "/{}");
      PathSubSplit(p[end..], u, '}');
      SplitFrom(p, u, previous, PARAM, p[end..], '}');
    } else {
      CopyStep(p, u, previous);
      PathSubSplit(p[1..], u, p[0]);
      SplitFrom(p, u, previous, [p[0]], p[1..], p[0]);
    }
  }

  ghost predicate Splits(p: string, u: string, previous: char) {
    PathSub(p + u, previous) == PathSub(p, previous) + PathSub(u, '/')
  }

  lemma SlashSplits(p: string, u: string, previous: char)
    requires |p| == 1 && Directory(p)
    ensures Splits(p, u, previous)
  {
    assert (p + u)[1..] == u && PathSub(p, previous) == p;
  }

  // The step both sides share, and then the rest.
  lemma SplitFrom(p: string, u: string, previous: char, first: string, rest: string, last: char)
    requires PathSub(p, previous) == first + PathSub(rest, last)
        && PathSub(p + u, previous) == first + PathSub(rest + u, last)
    requires Splits(rest, u, last)
    ensures Splits(p, u, previous)
  {
    Regroup(first, PathSub(rest, last), PathSub(u, '/'));
  }

  lemma Regroup(a: string, b: string, c: string)
    ensures (a + b) + c == a + (b + c)
  {
  }

  lemma ColonSplit(p: string, u: string, previous: char)
    requires |p| > 1 && Directory(p) && ColonAhead(p, previous)
    ensures 0 < Until(p, "/") < |p| && Directory(p[Until(p, "/")..])
    ensures PathSub(p, previous) == PARAM + PathSub(p[Until(p, "/")..], p[Until(p, "/") - 1])
    ensures PathSub(p + u, previous) == PARAM + PathSub(p[Until(p, "/")..] + u, p[Until(p, "/") - 1])
  {
    UntilLast(p, "/");
    UntilAppend(p, u, "/");
    OneColon(p, previous);
    OneColon(p + u, previous);
    DropAppend(p, u, Until(p, "/"));
  }

  lemma OneColon(p: string, previous: char)
    requires p != "" && ColonAhead(p, previous)
    ensures PathSub(p, previous) == PARAM + PathSub(p[Until(p, "/")..], p[Until(p, "/") - 1])
  {
  }

  lemma BraceStep(p: string, u: string, previous: char)
    requires |p| > 1 && Directory(p) && !ColonAhead(p, previous) && BraceAhead(p)
    ensures 2 + Until(p[1..], "/{}") < |p| && Directory(p[2 + Until(p[1..], "/{}")..])
    ensures PathSub(p, previous) == PARAM + PathSub(p[2 + Until(p[1..], "/{}")..], '}')
    ensures PathSub(p + u, previous) == PARAM + PathSub(p[2 + Until(p[1..], "/{}")..] + u, '}')
  {
    BraceSplit(p, u);
    var end := 2 + Until(p[1..], "/{}");
    assert p[end - 1] == '}';
    OneBrace(p, previous);
    OneBrace(p + u, previous);
    DropAppend(p, u, end);
  }

  lemma DropAppend(p: string, u: string, n: nat)
    requires n <= |p|
    ensures (p + u)[n..] == p[n..] + u
  {
  }

  lemma OneBrace(s: string, previous: char)
    requires !ColonAhead(s, previous) && BraceAhead(s)
    ensures PathSub(s, previous) == PARAM + PathSub(s[2 + Until(s[1..], "/{}")..], '}')
  {
  }

  lemma CopyStep(p: string, u: string, previous: char)
    requires |p| > 1 && Directory(p) && !ColonAhead(p, previous) && !BraceAhead(p)
    ensures Directory(p[1..])
    ensures PathSub(p, previous) == [p[0]] + PathSub(p[1..], p[0])
    ensures PathSub(p + u, previous) == [p[0]] + PathSub(p[1..] + u, p[0])
  {
    BraceSplit(p, u);
    assert (p + u)[1..] == p[1..] + u;
  }

  lemma BraceSplit(p: string, u: string)
    requires |p| > 1 && Directory(p)
    ensures Until((p + u)[1..], "/{}") == Until(p[1..], "/{}") && BraceAhead(p + u) == BraceAhead(p)
  {
    assert (p + u)[1..] == p[1..] + u;
    UntilLast(p[1..], "/{}");
    UntilAppend(p[1..], u, "/{}");
  }

  lemma MarkSub(m: string, name: string, t: string)
    requires Mark(m, name) && Segments(t)
    ensures PathSub(m + t, '/') == PARAM + PathSub(t, '}')
  {
    var s := m + t;
    if m == ":" + name {
      assert s[1] == name[0] && name[0] in name;
      assert s[|m|..] == t;
      assert forall i | 0 < i < |m| :: s[i] == name[i - 1] && name[i - 1] in name;
      if t == "" {
        UntilNone(s, "/");
      } else {
        UntilAt(s, "/", |m|);
      }
      PreviousIrrelevant(t, s[|m| - 1], '}');
    } else {
      assert s[1..] == name + "}" + t;
      assert forall i | 0 <= i < |name| :: s[1..][i] == name[i] && name[i] in name;
      UntilAt(s[1..], "/{}", |name|);
      assert s[2 + |name|..] == t;
    }
  }

  lemma MarkCollapse(p: string, m: string, name: string, t: string)
    requires Directory(p) && Mark(m, name) && Segments(t)
    ensures Collapse(p + (m + t)) == Collapse(p) + (m + Collapse(t))
  {
    assert forall i | 0 <= i < |m| :: m[i] == ':' || m[i] == '{' || m[i] == '}' || m[i] in name;
    CollapseAppend(p, m + t);
    CollapseAppend(m, t);
    CollapseFixed(m);
  }

  // The final pass forgets how a parameter was marked and what it was called.
  lemma MarkUntrimmed(p: string, m: string, name: string, t: string)
    requires Directory(p) && Mark(m, name) && Segments(t)
    ensures Untrimmed(p + (m + t)) == PathSub(Collapse(p), '\0') + (PARAM + PathSub(Collapse(t), '}'))
  {
    MarkCollapse(p, m, name, t);
    CollapseLast(p);
    CollapseSegments(t);
    MarkPath(Collapse(p), m, name, Collapse(t));
  }

  lemma CollapseSegments(t: string)
    requires Segments(t)
    ensures Segments(Collapse(t))
  {
    CollapseNoDouble(t);
  }

  lemma MarkPath(p: string, m: string, name: string, t: string)
    requires Directory(p) && Mark(m, name) && Segments(t)
    ensures PathSub(p + (m + t), '\0') == PathSub(p, '\0') + (PARAM + PathSub(t, '}'))
  {
    PathSubSplit(p, m + t, '\0');
    MarkSub(m, name, t);
  }

  // A declared route with one parameter marked in a given way.
  lemma DeclaredNormal(p: string, m: string, name: string, t: string, rejects: string -> bool)
    requires "/" <= p && Directory(p) && PlainText(p) && PlainText(t) && PlainText(name) && Mark(m, name) && Segments(t)
    ensures Normalize(p + (m + t), rejects) == Some(Finish(p + (PARAM + t)))
  {
    PlainMark(p, m, name, t);
    PlainNormal(p + (m + t), rejects);
    MarkUntrimmed(p, m, name, t);
    ParamIsMark();
    MarkUntrimmed(p, PARAM, "param", t);
  }

  lemma ParamIsMark()
    ensures Mark(PARAM, "param")
  {
    assert PARAM == "{" + "param" + "}";
  }

  lemma PlainMark(p: string, m: string, name: string, t: string)
    requires PlainText(p) && PlainText(t) && PlainText(name) && Mark(m, name)
    ensures PlainText(p + (m + t))
  {
    forall c | c in m ensures c == ':' || c == '{' || c == '}' || c in name {}
    forall c | c in p + (m + t) ensures c in p || c in m || c in t {}
  }

  // The same parameter as a template expression of a client call.
  lemma CalledNormal(p: string, name: string, t: string, rejects: string -> bool)
    requires "/" <= p && PlainText(p) && PlainText(t) && ParameterName(name) && PlainText(name)
    ensures Normalize(p + ("${" + name + "}" + t), rejects) == Some(Finish(p + (PARAM + t)))
  {
    var u := "${" + name + "}" + t;
    var route := p + u;
    forall c | c in route ensures c == '$' || c == '{' || c == '}' || c in name || c in t || c in p {}
    NormalizeRooted(route, rejects);
    StripRooted(route);
    assert route[|route| - 1] == if t == "" then '}' else t[|t| - 1];
    if t != "" { assert t[|t| - 1] in t; }
    TemplateSubAppend(p, u);
    TemplateMark(name, t);
  }

  // A route declared with :name, declared with {name} or called with ${name} has
  // one normal form, whatever the parameter is called.
  lemma StylesAgree(p: string, name: string, other: string, t: string, rejects: string -> bool)
    requires "/" <= p && Directory(p) && PlainText(p) && PlainText(t) && Segments(t)
    requires ParameterName(name) && PlainText(name) && ParameterName(other) && PlainText(other)
    ensures Normalize(p + (":" + name + t), rejects) == Normalize(p + ("{" + other + "}" + t), rejects)
    ensures Normalize(p + (":" + name + t), rejects) == Normalize(p + ("${" + other + "}" + t), rejects)
  {
    DeclaredNormal(p, ":" + name, name, t, rejects);
    DeclaredNormal(p, "{" + other + "}", other, t, rejects);
    CalledNormal(p, other, t, rejects);
  }

  // ---- A route that normalising twice changes -----------------------------------------------

  // The quote is not at the end until the query behind it has been cut.
  lemma QuoteBeforeQuery(rejects: string -> bool)
    ensures Normalize("/\"?", rejects) == Some("/\"")
    ensures Normalize("/\"", rejects) != Some("/\"")
  {
    QuoteIsKept(rejects);
    QuoteIsFinished();
    KeptExactly("/\"", rejects);
  }

  // Cutting the query leaves the quote at the end.
  lemma QuoteIsKept(rejects: string -> bool)
    ensures Normalize("/\"?", rejects) == Some("/\"")
  {
    var route := "/\"?";
    assert LStrip(route) == route && RStrip(route) == route;
    assert Unquoted(route) == route;
    assert !HasScheme(route);
    assert route[1..] == "\"?" && route[1..][1..] == "?";
    assert TemplateSub(route) == route;
    QuoteIsCut();
    QuoteIsFinished();
  }

  lemma QuoteIsCut()
    ensures Cut("/\"?") == "/\""
  {
    var route := "/\"?";
    assert route[1..] == "\"?" && route[1..][1..] == "?";
    assert Until(route, "?") == 2;
    assert route[..2] == "/\"";
    UntilNone("/\"", "#");
  }

  lemma QuoteIsFinished()
    ensures Finish("/\"") == "/\"" && NormalShape("/\"")
  {
    var r := "/\"";
    assert Until(r, "/") == 0;
    assert r[1..] == "\"";
    assert Collapse(r) == r && PathSub(r, '\0') == r;
  }
}
