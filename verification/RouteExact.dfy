// What normalize_route makes of a route, said of the route itself: what it ignores around
// the path, and what becomes of each segment (code_graph/http_endpoints.py).
module RouteExact {
  import opened Lists
  import opened PyText
  import opened RouteNormal
  import opened RouteLaws
  import opened RouteStyles

  // ---- Stripping the ends --------------------------------------------------------------

  // What stripping white space and then quotes leaves of the end.
  function EndStripped(p: string): string {
    StripQuotesRight(RStrip(p))
  }

  lemma {:induction false} RStripAfter(x: string, p: string)
    requires p != "" && !IsSpace(p[0])
    ensures RStrip(x + p) == x + RStrip(p) && RStrip(p) != "" && RStrip(p) <= p
    decreases |p|
  {
    if IsSpace(p[|p| - 1]) {
      assert (x + p)[..|x + p| - 1] == x + p[..|p| - 1];
      RStripAfter(x, p[..|p| - 1]);
    }
  }

  lemma {:induction false} QuotesAfter(x: string, p: string)
    requires p != "" && p[0] !in "'\"`"
    ensures StripQuotesRight(x + p) == x + StripQuotesRight(p) && StripQuotesRight(p) != "" && StripQuotesRight(p) <= p
    decreases |p|
  {
    if p[|p| - 1] in "'\"`" {
      assert (x + p)[..|x + p| - 1] == x + p[..|p| - 1];
      QuotesAfter(x, p[..|p| - 1]);
    }
  }

  lemma StripAfter(x: string, p: string)
    requires p != "" && !Loose(p[0]) && !Loose((x + p)[0])
    ensures Unquoted(Strip(x + p)) == x + EndStripped(p)
    ensures EndStripped(p) != "" && EndStripped(p) <= p
  {
    RStripAfter(x, p);
    QuotesAfter(x, RStrip(p));
    QuotesAfter("", RStrip(p));
    assert Strip(x + p) == x + RStrip(p);
    assert (x + RStrip(p))[0] == (x + p)[0];
  }

  lemma EndKept(p: string)
    requires p != "" && !Loose(p[|p| - 1])
    ensures EndStripped(p) == p
  {
  }

  lemma NormalizeValue(route: string, value: string, rejects: string -> bool)
    requires Unquoted(Strip(route)) == value && value != "" && value[0] != 'h'
    ensures Normalize(route, rejects) == Some(FromPath(value))
  {
    assert !HasScheme(value);
  }

  lemma SamePath(v: string, w: string)
    requires Rooted(DropBase(Cut(TemplateSub(v)))) == Rooted(DropBase(Cut(TemplateSub(w))))
    ensures FromPath(v) == FromPath(w)
  {
  }

  lemma RootedNormal(p: string, rejects: string -> bool)
    requires "/" <= p
    ensures Normalize(p, rejects) == Some(FromPath(EndStripped(p))) && "/" <= EndStripped(p) <= p
  {
    StripAfter("", p);
    assert "" + p == p && "" + EndStripped(p) == EndStripped(p);
    assert EndStripped(p)[0] == p[0];
    NormalizeValue(p, EndStripped(p), rejects);
  }

  // White space, quotes inside of it, and nothing else at the ends.
  lemma LooseEndsIgnored(left: string, open: string, p: string, close: string, right: string, rejects: string -> bool)
    requires AllSpace(left) && AllSpace(right) && AllQuotes(open) && AllQuotes(close)
    requires p != "" && !Loose(p[0]) && !Loose(p[|p| - 1])
    ensures Normalize(left + (open + (p + (close + right))), rejects) == Normalize(p, rejects)
  {
    var inner := open + (p + close);
    assert open + (p + (close + right)) == inner + right;
    assert !IsSpace(inner[0]) && !IsSpace(inner[|inner| - 1]);
    assert (inner + right)[0] == inner[0];
    LStripBlank(left, inner + right);
    RStripBlank(inner, right);
    QuotesLeftOff(open, p + close);
    QuotesRightOff(p, close);
    StripAfter("", p);
    EndKept(p);
    assert "" + p == p;
  }

  ghost predicate AllQuotes(s: string) {
    forall i | 0 <= i < |s| :: s[i] in "'\"`"
  }

  lemma {:induction false} RStripBlank(s: string, blank: string)
    requires AllSpace(blank) && s != "" && !IsSpace(s[|s| - 1])
    ensures RStrip(s + blank) == s
    decreases |blank|
  {
    if blank == "" {
      assert s + blank == s;
    } else {
      assert (s + blank)[..|s + blank| - 1] == s + blank[..|blank| - 1];
      RStripBlank(s, blank[..|blank| - 1]);
    }
  }

  lemma {:induction false} QuotesLeftOff(quotes: string, s: string)
    requires AllQuotes(quotes) && s != "" && s[0] !in "'\"`"
    ensures StripQuotesLeft(quotes + s) == s
    decreases |quotes|
  {
    if quotes == "" {
      assert quotes + s == s;
    } else {
      assert (quotes + s)[1..] == quotes[1..] + s;
      QuotesLeftOff(quotes[1..], s);
    }
  }

  lemma {:induction false} QuotesRightOff(s: string, quotes: string)
    requires AllQuotes(quotes) && s != "" && s[|s| - 1] !in "'\"`"
    ensures StripQuotesRight(s + quotes) == s
    decreases |quotes|
  {
    if quotes == "" {
      assert s + quotes == s;
    } else {
      assert (s + quotes)[..|s + quotes| - 1] == s + quotes[..|quotes| - 1];
      QuotesRightOff(s, quotes[..|quotes| - 1]);
    }
  }

  // ---- The passes on a text in two parts ---------------------------------------------------

  lemma TemplateLead(e: string, u: string)
    requires e != "" && '}' !in e
    ensures TemplateSub("${" + e + "}" + u) == PARAM + TemplateSub(u)
  {
    var s := "${" + e + "}" + u;
    assert s[2..] == e + "}" + u;
    assert s[2..][|e|] == '}';
    assert forall i | 0 <= i < |e| :: s[2..][i] == e[i] && e[i] in e;
    UntilAt(s[2..], "}", |e|);
    assert s[3 + |e|..] == u;
  }

  // An expression begins in q and ends in what follows it.
  predicate Straddles(q: string, t: string)
    decreases |q|
  {
    if q == "" then false
    else if TemplateAhead(q + t) then
      var end := 3 + Until((q + t)[2..], "}");
      end > |q| || Straddles(q[end..], t)
    else Straddles(q[1..], t)
  }

  // Otherwise the two are replaced independently.
  lemma {:induction false} TemplateSplit(q: string, t: string)
    requires !Straddles(q, t)
    ensures TemplateSub(q + t) == TemplateSub(q) + TemplateSub(t)
    decreases |q|
  {
    if q == "" {
      assert q + t == t;
    } else {
      AheadOfWhole(q, t);
      var end := if TemplateAhead(q + t) then 3 + Until((q + t)[2..], "}") else 1;
      assert (q + t)[end..] == q[end..] + t;
      TemplateSplit(q[end..], t);
      TemplateStep(q, end);
      TemplateStep(q + t, end);
      Regroup(if TemplateAhead(q) then PARAM else [q[0]], TemplateSub(q[end..]), TemplateSub(t));
    }
  }

  lemma AheadOfWhole(q: string, t: string)
    requires q != "" && (TemplateAhead(q + t) ==> 3 + Until((q + t)[2..], "}") <= |q|)
    ensures TemplateAhead(q + t) == TemplateAhead(q)
    ensures TemplateAhead(q) ==> Until((q + t)[2..], "}") == Until(q[2..], "}")
  {
    if TemplateAhead(q) {
      assert (q + t)[2..] == q[2..] + t;
      UntilAppend(q[2..], t, "}");
    }
    if TemplateAhead(q + t) {
      var n := Until((q + t)[2..], "}");
      assert (q + t)[2..] == q[2..] + t;
      assert forall i | 0 <= i <= n :: q[2..][i] == (q + t)[2..][i];
      UntilAt(q[2..], "}", n);
      assert q[..2] == (q + t)[..2];
    }
  }

  // No expression can end where there is no brace.
  lemma {:induction false} NothingStraddles(q: string, t: string)
    requires '$' !in q || '}' !in t
    ensures !Straddles(q, t)
    decreases |q|
  {
    if q != "" {
      if '$' !in q {
        NoDollarAhead(q, t);
        NothingStraddles(q[1..], t);
      } else if TemplateAhead(q + t) {
        var end := 3 + Until((q + t)[2..], "}");
        assert (q + t)[2..][end - 3] == (q + t)[end - 1] == '}';
        BraceBefore(q, t, end - 1);
        NothingStraddles(q[end..], t);
      } else {
        NothingStraddles(q[1..], t);
      }
    }
  }

  lemma NoDollarAhead(q: string, t: string)
    requires q != "" && '$' !in q
    ensures !TemplateAhead(q + t)
  {
    assert (q + t)[0] == q[0];
  }

  lemma BraceBefore(q: string, t: string, i: nat)
    requires '}' !in t && i < |q + t| && (q + t)[i] == '}'
    ensures i < |q|
  {
    assert forall k | |q| <= k < |q + t| :: (q + t)[k] == t[k - |q|];
  }

  lemma TemplateStep(s: string, end: nat)
    requires s != "" && end == if TemplateAhead(s) then 3 + Until(s[2..], "}") else 1
    ensures end <= |s| && TemplateSub(s) == (if TemplateAhead(s) then PARAM else [s[0]]) + TemplateSub(s[end..])
  {
  }

  lemma {:induction false} NoBraceNoTemplate(t: string)
    requires '}' !in t
    ensures !HasTemplate(t)
    decreases |t|
  {
    if t != "" {
      if TemplateAhead(t) {
        BraceInside(t);
        assert false;
      }
      NoBraceNoTemplate(t[1..]);
    }
  }

  lemma BraceInside(t: string)
    requires TemplateAhead(t)
    ensures '}' in t
  {
    assert t[2..][Until(t[2..], "}")] == '}';
  }

  lemma {:induction false} UntilAfter(a: string, b: string, stop: string)
    requires forall c | c in a :: c !in stop
    ensures Until(a + b, stop) == |a| + Until(b, stop)
    decreases |a|
  {
    if a == "" {
      assert a + b == b;
    } else {
      assert (a + b)[0] == a[0] && a[0] in a;
      assert (a + b)[1..] == a[1..] + b;
      UntilAfter(a[1..], b, stop);
    }
  }

  lemma CutAfter(a: string, b: string)
    requires NoQuery(a)
    ensures Cut(a + b) == a + Cut(b)
  {
    UpToAfter(a, b, "?");
    UpToAfter(a, b[..Until(b, "?")], "#");
  }

  lemma UpToAfter(a: string, b: string, stop: string)
    requires forall c | c in a :: c !in stop
    ensures (a + b)[..Until(a + b, stop)] == a + b[..Until(b, stop)]
  {
    UntilAfter(a, b, stop);
  }

  lemma CutPrefix(s: string)
    ensures Cut(s) <= s
  {
  }

  lemma CutBefore(a: string, b: string)
    requires b != "" && b[0] in "?#"
    ensures Cut(a + b) == Cut(a)
  {
    if NoQuery(a) {
      CutAfter(a, b);
      CutNothing(a);
      assert Cut(b) == "";
    } else if '?' in a {
      CutAtQuery(a, b);
    } else {
      CutAtFragment(a, b);
    }
  }

  lemma CutAtQuery(a: string, b: string)
    requires '?' in a
    ensures Cut(a + b) == Cut(a)
  {
    if Until(a, "?") == |a| {
      NothingStops(a, "?");
      assert false;
    }
    UntilAppend(a, b, "?");
    assert (a + b)[..Until(a, "?")] == a[..Until(a, "?")];
  }

  lemma CutAtFragment(a: string, b: string)
    requires '?' !in a && '#' in a
    ensures Cut(a + b) == Cut(a)
  {
    if Until(a, "#") == |a| {
      NothingStops(a, "#");
      assert false;
    }
    UntilAfter(a, b, "?");
    var rest := b[..Until(b, "?")];
    assert (a + b)[..|a| + Until(b, "?")] == a + rest;
    UntilNone(a, "?");
    assert a[..|a|] == a;
    UntilAppend(a, rest, "#");
    assert (a + rest)[..Until(a, "#")] == a[..Until(a, "#")];
  }

  // ---- What comes before the path -----------------------------------------------------------

  // A client's base address in front of the path does not matter: a template expression,
  // with anything up to the first slash.
  lemma BaseIgnored(e: string, more: string, p: string, rejects: string -> bool)
    requires e != "" && '}' !in e && '/' !in more && '$' !in more && NoQuery(more) && "/" <= p
    ensures Normalize("${" + e + "}" + (more + p), rejects) == Normalize(p, rejects)
  {
    var base := "${" + e + "}" + more;
    assert "${" + e + "}" + (more + p) == base + p;
    assert base[0] == '$';
    StripAfter(base, p);
    RootedNormal(p, rejects);
    NormalizeValue(base + p, base + EndStripped(p), rejects);
    BaseReplaced(e, more, EndStripped(p));
    SamePath(base + EndStripped(p), EndStripped(p));
  }

  lemma BaseReplaced(e: string, more: string, v: string)
    requires e != "" && '}' !in e && '/' !in more && '$' !in more && NoQuery(more) && "/" <= v
    ensures Rooted(DropBase(Cut(TemplateSub(("${" + e + "}" + more) + v)))) == Rooted(DropBase(Cut(TemplateSub(v))))
  {
    assert ("${" + e + "}" + more) + v == "${" + e + "}" + (more + v);
    TemplateLead(e, more + v);
    TemplateSubAppend(more, v);
    assert PARAM + (more + TemplateSub(v)) == (PARAM + more) + TemplateSub(v);
    BasePathIgnored(PARAM + more, TemplateSub(v));
  }

  lemma BasePathIgnored(base: string, t: string)
    requires PARAM <= base && '/' !in base && NoQuery(base) && "/" <= t
    ensures Rooted(DropBase(Cut(base + t))) == Rooted(DropBase(Cut(t)))
  {
    CutAfter(base, t);
    CutAfter("/", t[1..]);
    assert t == "/" + t[1..];
    var c := Cut(t);
    assert "/" <= c;
    UntilAfter(base, c, "/");
    assert Until(c, "/") == 0;
    assert (base + c)[..|base|] == base && (base + c)[|base|..] == c;
  }

  // Neither does the address of a server, if the library takes it, unless an expression
  // begins before the query and ends in it: the library cuts the query off first.
  lemma HostIgnored(scheme: string, host: string, p: string, rejects: string -> bool)
    requires scheme == "http://" || scheme == "https://"
    requires (forall c | c in host :: c !in "/?#\t\r\n") && (forall c | c in p :: c !in "\t\r\n") && "/" <= p
    requires (var v := EndStripped(p); !Straddles(PathPart(v), v[|PathPart(v)|..]))
    ensures Normalize(scheme + host + p, rejects) == if rejects(host) then None else Normalize(p, rejects)
  {
    HostStripped(scheme, host, p);
    RootedNormal(p, rejects);
    PrefixPlain(EndStripped(p), p);
    HostNormal(scheme, host, scheme + host + p, EndStripped(p), rejects);
    PathCutTwice(EndStripped(p));
  }

  // Such an expression can make a difference.
  lemma StraddlingMatters(host: string, x: string, y: string, rejects: string -> bool)
    requires (forall c | c in host :: c !in "/?#\t\r\n") && !rejects(host)
    requires x != "" && PlainText(x) && (forall c | c in x :: c !in "/:{}")
    requires '}' !in y && forall c | c in y :: c !in "\t\r\n"
    ensures (var p := "/" + ("${" + (x + "?" + y) + "}");
             Normalize(p, rejects) == Some("/{param}")
             && Normalize("http://" + host + p, rejects) == Some("/${" + x))
  {
    var p := "/" + Written(Template(x + "?" + y));
    OneTemplateNormal(Template(x + "?" + y), rejects);
    StraddlingText(x, y);
    HostTight(host, p, rejects);
    CutInside(x, y);
    OpenKept(x);
  }

  lemma StraddlingText(x: string, y: string)
    requires PlainText(x) && forall c | c in y :: c !in "\t\r\n"
    ensures (var p := "/" + Written(Template(x + "?" + y));
             "/" <= p && TightEnd(p) && forall c | c in p :: c !in "\t\r\n")
  {
    forall c | c in x ensures c !in "\t\r\n" {
      assert Clean(c);
    }
    forall c | c in x + "?" + y ensures c !in "\t\r\n" {}
    forall c | c in "/" + Written(Template(x + "?" + y)) ensures c in "/${}" || c in x + "?" + y {}
  }

  lemma HostTight(host: string, p: string, rejects: string -> bool)
    requires (forall c | c in host :: c !in "/?#\t\r\n") && !rejects(host)
    requires "/" <= p && TightEnd(p) && forall c | c in p :: c !in "\t\r\n"
    ensures Normalize("http://" + host + p, rejects) == Some(FromPath(PathPart(p)))
  {
    HostStripped("http://", host, p);
    EndKept(p);
    HostNormal("http://", host, "http://" + host + p, p, rejects);
    PathPartIsCut(p);
  }

  lemma OneTemplateNormal(s: Segment, rejects: string -> bool)
    requires s.Template? && ValidSegment(s)
    ensures Normalize("/" + Written(s), rejects) == Some("/{param}")
  {
    SegmentsExact([s], rejects);
    OneRoute(s);
    OneForm(s);
  }

  lemma OneRoute(s: Segment)
    ensures RouteOf([s]) == "/" + Written(s)
  {
    assert [s][1..] == [] && RouteOf([]) == "";
  }

  lemma OneForm(s: Segment)
    requires s.Template?
    ensures FormOf([s]) == "/{param}"
  {
    assert [s][1..] == [] && FormOf([]) == "";
    assert "/" + "{param}" + "" == "/{param}";
  }

  lemma CutInside(x: string, y: string)
    requires forall c | c in x :: c !in "?#"
    ensures PathPart("/" + ("${" + (x + "?" + y) + "}")) == "/${" + x
  {
    var q := "/${" + x;
    assert "/" + ("${" + (x + "?" + y) + "}") == q + ("?" + y + "}");
    CutAfterText(q, "?" + y + "}");
  }

  lemma CutAfterText(q: string, t: string)
    requires t != "" && t[0] in "?#" && forall c | c in q :: c !in "?#"
    ensures PathPart(q + t) == q
  {
    UntilAfter(q, t, "?#");
    assert (q + t)[..|q|] == q;
  }

  // An expression that does not end is text.
  lemma OpenKept(x: string)
    requires x != "" && PlainText(x) && (forall c | c in x :: c !in "/:{}")
    ensures FromPath("/${" + x) == "/${" + x
  {
    OpenChars(x);
    NoSlashInside("/${" + x);
    OpenCopied(x);
    FixedPath("/${" + x);
  }

  lemma OpenChars(x: string)
    requires x != "" && NoQuery(x) && (forall c | c in x :: c !in "/:{}")
    ensures (var q := "/${" + x; '}' !in q && NoQuery(q) && '/' !in q[1..] && q[|q| - 1] != '/')
  {
    forall c | c in "/${" + x ensures c in "/${" || c in x {}
    assert ("/${" + x)[1..] == "${" + x;
    forall c | c in "${" + x ensures c in "${" || c in x {}
    assert x[|x| - 1] in x;
  }

  lemma NoSlashInside(q: string)
    requires q != "" && '/' !in q[1..]
    ensures NoDouble(q)
  {
    assert forall i: nat | i + 1 < |q| :: q[i + 1] == q[1..][i] && q[1..][i] in q[1..];
  }

  lemma FixedPath(q: string)
    requires "/" <= q && |q| > 1 && q[|q| - 1] != '/' && '}' !in q && NoQuery(q) && NoDouble(q) && PathSub(q, '\0') == q
    ensures FromPath(q) == q
  {
    NoBraceNoTemplate(q);
    TemplateSubNone(q);
    CutNothing(q);
    assert Until(q, "/") == 0;
    CollapseFixed(q);
  }

  lemma OpenCopied(x: string)
    requires x != "" && forall c | c in x :: c !in "/:{}"
    ensures PathSub("/${" + x, '\0') == "/${" + x
  {
    var q := "/${" + x;
    assert q[1..] == "${" + x && q[1..][1..] == "{" + x && q[1..][1..][1..] == x;
    UntilNone(x, "/{}");
    PlainCopied(x, '{');
    assert ("{" + x)[1..] == x;
    OneCopy("{" + x, '$');
    OneCopy("${" + x, '/');
    OneCopy(q, '\0');
  }

  lemma PrefixPlain(v: string, p: string)
    requires v <= p && forall c | c in p :: c !in "\t\r\n"
    ensures forall c | c in v :: c !in "\t\r\n"
  {
  }

  lemma HostStripped(scheme: string, host: string, p: string)
    requires (scheme == "http://" || scheme == "https://") && "/" <= p
    ensures Unquoted(Strip(scheme + host + p)) == scheme + host + EndStripped(p)
  {
    assert (scheme + host + p)[0] == 'h';
    StripAfter(scheme + host, p);
  }

  lemma HostNormal(scheme: string, host: string, route: string, v: string, rejects: string -> bool)
    requires scheme == "http://" || scheme == "https://"
    requires (forall c | c in host :: c !in "/?#\t\r\n") && (forall c | c in v :: c !in "\t\r\n") && "/" <= v
    requires Unquoted(Strip(route)) == scheme + host + v
    ensures Normalize(route, rejects) == if rejects(host) then None else Some(FromPath(Cut(v)))
  {
    HostPath(scheme, host, v, rejects);
    NormalizeUrl(route, scheme + host + v, rejects);
  }

  lemma NormalizeUrl(route: string, value: string, rejects: string -> bool)
    requires Unquoted(Strip(route)) == value && HasScheme(value)
    ensures Normalize(route, rejects)
         == if UrlPath(value, rejects).None? then None else Some(FromPath(UrlPath(value, rejects).value))
  {
  }

  lemma HostPath(scheme: string, host: string, v: string, rejects: string -> bool)
    requires scheme == "http://" || scheme == "https://"
    requires (forall c | c in host :: c !in "/?#\t\r\n") && (forall c | c in v :: c !in "\t\r\n") && "/" <= v
    ensures HasScheme(scheme + host + v)
    ensures UrlPath(scheme + host + v, rejects) == if rejects(host) then None else Some(Cut(v))
  {
    SchemeOff(scheme, host + v);
    assert scheme + host + v == scheme + (host + v);
    WithoutNothing(host + v, "\t\r\n");
    UntilAfter(host, v, "/?#");
    assert (host + v)[..|host|] == host && (host + v)[|host|..] == v;
  }

  // The beginning up to the query is cut once more without effect.
  lemma PathCutTwice(v: string)
    requires !Straddles(PathPart(v), v[|PathPart(v)|..])
    ensures FromPath(Cut(v)) == FromPath(v)
  {
    var q, t := PathPart(v), v[|PathPart(v)|..];
    assert v == q + t;
    PathPartIsCut(v);
    if t != "" {
      QueryCut(q, t);
      SamePath(v, q);
    } else {
      assert v == q;
    }
  }

  // The text before the first question or hash mark.
  function PathPart(v: string): string {
    v[..Until(v, "?#")]
  }

  lemma PathPartIsCut(v: string)
    ensures Cut(v) == PathPart(v) && (PathPart(v) == v || v[|PathPart(v)|] in "?#")
  {
    var q, t := PathPart(v), v[|PathPart(v)|..];
    assert v == q + t;
    assert NoQuery(q);
    CutAfter(q, t);
    if t != "" {
      assert Cut(t) == "";
    }
  }

  lemma SchemeOff(scheme: string, rest: string)
    requires scheme == "http://" || scheme == "https://"
    ensures HasScheme(scheme + rest)
    ensures (scheme + rest)[if "http://" <= scheme + rest then 7 else 8..] == rest
  {
    if scheme == "https://" {
      assert (scheme + rest)[4] == 's';
      assert "http://"[4] == ':';
    }
  }

  lemma {:induction false} WithoutNothing(s: string, unwanted: string)
    requires forall c | c in s :: c !in unwanted
    ensures Without(s, unwanted) == s
  {
    if s != "" {
      assert s[0] in s;
      WithoutNothing(s[1..], unwanted);
    }
  }

  // A route that does not begin with a slash gets one.
  lemma SlashAdded(v: string, rejects: string -> bool)
    requires v != "" && !Loose(v[0]) && v[0] != '/' && !HasScheme(v) && '$' !in v && !(PARAM <= v)
    ensures Normalize(v, rejects) == Normalize("/" + v, rejects)
  {
    var w := EndStripped(v);
    BothStripped(v);
    NoSchemeInPrefix(w, v);
    NoSchemeInPrefix("/" + w, "/" + w);
    NormalizePath(v, w, rejects);
    NormalizePath("/" + v, "/" + w, rejects);
    SlashBefore(w);
    SamePath(w, "/" + w);
  }

  lemma NoSchemeInPrefix(w: string, v: string)
    requires w <= v && (v == "" || v[0] != 'h' || !HasScheme(v))
    ensures !HasScheme(w)
  {
  }

  lemma BothStripped(v: string)
    requires v != "" && !Loose(v[0])
    ensures Unquoted(Strip(v)) == EndStripped(v) != "" && EndStripped(v) <= v
    ensures Unquoted(Strip("/" + v)) == "/" + EndStripped(v)
  {
    StripAfter("", v);
    assert "" + v == v && "" + EndStripped(v) == EndStripped(v);
    StripAfter("/", v);
  }

  lemma NormalizePath(route: string, value: string, rejects: string -> bool)
    requires Unquoted(Strip(route)) == value && value != "" && !HasScheme(value)
    ensures Normalize(route, rejects) == Some(FromPath(value))
  {
  }

  lemma SlashBefore(w: string)
    requires w != "" && w[0] != '/' && '$' !in w && !(PARAM <= w)
    ensures Rooted(DropBase(Cut(TemplateSub(w)))) == Rooted(DropBase(Cut(TemplateSub("/" + w))))
  {
    CleanHasNoTemplate(w);
    TemplateSubNone(w);
    CleanHasNoTemplate("/" + w);
    TemplateSubNone("/" + w);
    CutAfter("/", w);
    CutPrefix(w);
    var c := Cut(w);
    assert PARAM <= c[..Until(c, "/")] ==> PARAM <= w;
    assert Until("/" + c, "/") == 0;
  }

  // ---- What comes after the path -----------------------------------------------------------

  // Query and fragment do not matter, unless an expression reaches into them.
  lemma QueryIgnored(q: string, tail: string, rejects: string -> bool)
    requires "/" <= q && !Loose(q[|q| - 1]) && tail != "" && tail[0] in "?#" && !Straddles(q, EndStripped(tail))
    ensures Normalize(q + tail, rejects) == Normalize(q, rejects)
  {
    RootedTight(q, rejects);
    TailStripped(q, tail, rejects);
    QueryCut(q, EndStripped(tail));
    SamePath(q + EndStripped(tail), q);
  }

  lemma TailStripped(q: string, tail: string, rejects: string -> bool)
    requires "/" <= q && tail != "" && tail[0] in "?#"
    ensures Normalize(q + tail, rejects) == Some(FromPath(q + EndStripped(tail)))
    ensures EndStripped(tail) != "" && EndStripped(tail)[0] == tail[0]
  {
    StripAfter(q, tail);
    assert (q + EndStripped(tail))[0] == '/';
    NormalizeValue(q + tail, q + EndStripped(tail), rejects);
  }

  lemma QueryCut(q: string, t: string)
    requires t != "" && t[0] in "?#" && !Straddles(q, t)
    ensures Cut(TemplateSub(q + t)) == Cut(TemplateSub(q))
  {
    TemplateSplit(q, t);
    assert TemplateSub(t)[0] == t[0];
    CutBefore(TemplateSub(q), TemplateSub(t));
  }

  lemma {:induction false} CollapseSlash(s: string)
    requires s != ""
    ensures Collapse(s + "/") == if s[|s| - 1] == '/' then Collapse(s) else Collapse(s) + "/"
    decreases |s|
  {
    assert (s + "/")[1..] == s[1..] + "/";
    if |s| > 1 {
      CollapseSlash(s[1..]);
    } else {
      assert s + "/" == [s[0], '/'];
      assert "/"[1..] == "" && s[1..] == "";
      assert Collapse("/") == "/";
    }
  }

  lemma {:induction false} CollapseEnd(s: string)
    requires s != ""
    ensures Collapse(s) != "" && Collapse(s)[|Collapse(s)| - 1] == s[|s| - 1]
    decreases |s|
  {
    if |s| > 1 {
      CollapseEnd(s[1..]);
    }
  }

  lemma {:induction false} PathSubSlash(s: string, previous: char)
    ensures SlashStays(s, previous)
    decreases |s|
  {
    if s == "" {
      assert s + "/" == "/";
      assert "/"[1..] == "";
    } else if ColonAhead(s, previous) {
      PathSubSlash(s[Until(s, "/")..], s[Until(s, "/") - 1]);
      ColonSlash(s, previous);
    } else if BraceAhead(s) {
      PathSubSlash(s[2 + Until(s[1..], "/{}")..], '}');
      BraceThenSlash(s, previous);
    } else {
      PathSubSlash(s[1..], s[0]);
      CopyThenSlash(s, previous);
    }
  }

  ghost predicate SlashStays(s: string, previous: char) {
    PathSub(s + "/", previous) == PathSub(s, previous) + "/"
  }

  lemma ColonSlash(s: string, previous: char)
    requires s != "" && ColonAhead(s, previous) && SlashStays(s[Until(s, "/")..], s[Until(s, "/") - 1])
    ensures SlashStays(s, previous)
  {
    var end := Until(s, "/");
    UntilSlash(s);
    DropAppend(s, "/", end);
    OneColon(s, previous);
    OneColon(s + "/", previous);
    Regroup(PARAM, PathSub(s[end..], s[end - 1]), "/");
  }

  lemma BraceThenSlash(s: string, previous: char)
    requires s != "" && !ColonAhead(s, previous) && BraceAhead(s) && SlashStays(s[2 + Until(s[1..], "/{}")..], '}')
    ensures SlashStays(s, previous)
  {
    var end := 2 + Until(s[1..], "/{}");
    BraceSlash(s);
    DropAppend(s, "/", end);
    OneBrace(s, previous);
    OneBrace(s + "/", previous);
    Regroup(PARAM, PathSub(s[end..], '}'), "/");
  }

  lemma CopyThenSlash(s: string, previous: char)
    requires s != "" && !ColonAhead(s, previous) && !BraceAhead(s) && SlashStays(s[1..], s[0])
    ensures SlashStays(s, previous)
  {
    BraceSlash(s);
    OneCopy(s, previous);
    assert (s + "/")[1..] == s[1..] + "/";
    assert !ColonAhead(s + "/", previous);
    OneCopy(s + "/", previous);
    Regroup([s[0]], PathSub(s[1..], s[0]), "/");
  }

  lemma OneCopy(s: string, previous: char)
    requires s != "" && !ColonAhead(s, previous) && !BraceAhead(s)
    ensures PathSub(s, previous) == [s[0]] + PathSub(s[1..], s[0])
  {
  }

  lemma UntilSlash(s: string)
    ensures Until(s + "/", "/") == Until(s, "/")
  {
    UntilAt(s + "/", "/", Until(s, "/"));
  }

  lemma BraceSlash(s: string)
    requires s != ""
    ensures BraceAhead(s + "/") == BraceAhead(s)
    ensures BraceAhead(s) ==> Until((s + "/")[1..], "/{}") == Until(s[1..], "/{}")
  {
    assert (s + "/")[1..] == s[1..] + "/";
    var n := Until(s[1..], "/{}");
    UntilAt(s[1..] + "/", "/{}", n);
  }

  lemma TrimSlash(s: string)
    ensures TrimSlashes(s + "/") == TrimSlashes(s)
  {
    assert (s + "/")[..|s|] == s;
  }

  // A slash at the end does not matter.
  lemma SlashIgnored(p: string, rejects: string -> bool)
    requires "/" <= p && !Loose(p[|p| - 1])
    ensures Normalize(p + "/", rejects) == Normalize(p, rejects)
  {
    RootedTight(p, rejects);
    EndOfSum(p, "/");
    RootedTight(p + "/", rejects);
    SlashPath(p);
  }

  lemma RootedTight(p: string, rejects: string -> bool)
    requires "/" <= p && TightEnd(p)
    ensures Normalize(p, rejects) == Some(FromPath(p))
  {
    RootedNormal(p, rejects);
    EndKept(p);
  }

  lemma SlashPath(p: string)
    requires "/" <= p
    ensures FromPath(p + "/") == FromPath(p)
  {
    NothingStraddles(p, "/");
    TemplateSplit(p, "/");
    assert TemplateSub("/") == "/";
    SlashOnPath(TemplateSub(p));
  }

  lemma SlashOnPath(t: string)
    requires "/" <= t
    ensures Finish(Rooted(DropBase(Cut(t + "/")))) == Finish(Rooted(DropBase(Cut(t))))
  {
    CutSlash(t);
    CutAfter("/", t[1..]);
    assert t == "/" + t[1..];
    var c := Cut(t);
    assert Until(c, "/") == 0;
    if Cut(t + "/") != c {
      assert Until(c + "/", "/") == 0;
      FinishSlash(c);
    }
  }

  // The slash either is cut off with the query or stands at the end.
  lemma CutSlash(t: string)
    ensures Cut(t + "/") == Cut(t) || Cut(t + "/") == Cut(t) + "/"
  {
    var n := Until(t, "?");
    if n < |t| {
      UntilAppend(t, "/", "?");
      assert (t + "/")[..n] == t[..n];
    } else {
      forall c | c in t ensures c !in "?" {
        var i :| 0 <= i < |t| && t[i] == c;
      }
      UntilNone(t + "/", "?");
      assert t[..n] == t && (t + "/")[..|t + "/"|] == t + "/";
      CutSlashFragment(t);
    }
  }

  lemma CutSlashFragment(t: string)
    ensures (t + "/")[..Until(t + "/", "#")] == t[..Until(t, "#")]
         || (t + "/")[..Until(t + "/", "#")] == t[..Until(t, "#")] + "/"
  {
    var n := Until(t, "#");
    if n < |t| {
      UntilAppend(t, "/", "#");
      assert (t + "/")[..n] == t[..n];
    } else {
      forall c | c in t ensures c !in "#" {
        var i :| 0 <= i < |t| && t[i] == c;
      }
      UntilNone(t + "/", "#");
    }
  }

  lemma FinishSlash(c: string)
    requires "/" <= c
    ensures Finish(c + "/") == Finish(c)
  {
    CollapseSlash(c);
    if c[|c| - 1] != '/' {
      PathSubSlash(Collapse(c), '\0');
      CollapseNoDouble(c);
      CollapseEnd(c);
      var collapsed := Collapse(c);
      assert |collapsed| > 1;
      PathSubHead(collapsed, '\0');
      var value := PathSub(collapsed, '\0');
      PathSubLonger(collapsed, '\0');
      TrimSlash(value);
    }
  }

  lemma PathSubLonger(s: string, previous: char)
    requires |s| > 1 && s[0] == '/'
    ensures |PathSub(s, previous)| > 1
  {
    PathSubHead(s[1..], s[0]);
  }

  lemma {:induction false} CollapseDouble(a: string, t: string)
    requires "/" <= t
    ensures Collapse(a + ("/" + t)) == Collapse(a + t)
    decreases |a|
  {
    if a == "" {
      assert a + ("/" + t) == "/" + t && a + t == t;
      assert ("/" + t)[1..] == t;
    } else {
      assert (a + ("/" + t))[1..] == a[1..] + ("/" + t);
      assert (a + t)[1..] == a[1..] + t;
      assert a[1..] != "" ==> (a[1..] + ("/" + t))[0] == a[1] == (a[1..] + t)[0];
      CollapseDouble(a[1..], t);
    }
  }

  // A doubled slash does not matter.
  lemma DoubleIgnored(a: string, b: string, rejects: string -> bool)
    requires (a == "" || "/" <= a) && '$' !in a
    ensures Normalize(a + ("/" + ("/" + b)), rejects) == Normalize(a + ("/" + b), rejects)
  {
    var p := "/" + b;
    assert a + ("/" + p) == (a + "/") + p;
    StripAfter(a + "/", p);
    StripAfter(a, p);
    var v := EndStripped(p);
    assert "/" <= v;
    assert "/" <= a + v && "/" <= (a + "/") + v;
    assert !HasScheme(a + v) && !HasScheme((a + "/") + v);
    TemplateSubAppend(a, v);
    TemplateSubAppend(a + "/", v);
    DoubleOnPath(a, TemplateSub(v));
  }

  lemma DoubleOnPath(a: string, t: string)
    requires (a == "" || "/" <= a) && "/" <= t
    ensures Finish(Rooted(DropBase(Cut((a + "/") + t)))) == Finish(Rooted(DropBase(Cut(a + t))))
  {
    if NoQuery(a) {
      CutAfter(a, t);
      CutAfter(a + "/", t);
      CutAfter("/", t[1..]);
      assert t == "/" + t[1..];
      DoubleFinish(a, Cut(t));
    } else {
      assert (a + "/") + t == a + ("/" + t);
      CutBehind(a, "/" + t);
      CutBehind(a, t);
    }
  }

  lemma DoubleFinish(a: string, c: string)
    requires (a == "" || "/" <= a) && "/" <= c
    ensures Finish(Rooted(DropBase((a + "/") + c))) == Finish(Rooted(DropBase(a + c)))
  {
    assert (a + "/") + c == a + ("/" + c);
    assert Until(a + c, "/") == 0 && Until(a + ("/" + c), "/") == 0;
    CollapseDouble(a, c);
  }

  lemma CutBehind(a: string, b: string)
    requires !NoQuery(a)
    ensures Cut(a + b) == Cut(a)
  {
    if '?' in a {
      CutAtQuery(a, b);
    } else {
      CutAtFragment(a, b);
    }
  }

  lemma NothingStops(a: string, stop: string)
    requires Until(a, stop) == |a|
    ensures forall c | c in a :: c !in stop
  {
    forall c | c in a ensures c !in stop {
      var i :| 0 <= i < |a| && a[i] == c;
    }
  }

  // ---- The segments -------------------------------------------------------------------------

  // A fixed name, or a parameter in one of the three styles.
  datatype Segment = Fixed(text: string) | Colon(name: string) | Brace(name: string) | Template(expression: string)

  ghost predicate ValidSegment(s: Segment) {
    match s
    case Fixed(text) => text != "" && text[0] != ':' && PlainText(text) && forall c | c in text :: c !in "/{}"
    case Colon(name) => ParameterName(name) && PlainText(name)
    case Brace(name) => ParameterName(name) && PlainText(name)
    case Template(expression) => expression != "" && '}' !in expression
  }

  function Written(s: Segment): string {
    match s
    case Fixed(text) => text
    case Colon(name) => ":" + name
    case Brace(name) => "{" + name + "}"
    case Template(expression) => "${" + expression + "}"
  }

  function RouteOf(segments: seq<Segment>): string
    decreases |segments|
  {
    if segments == [] then "" else "/" + Written(segments[0]) + RouteOf(segments[1..])
  }

  // Fixed names stay, parameters lose their names.
  function Form(s: Segment): string {
    if s.Fixed? then s.text else "{param}"
  }

  function FormOf(segments: seq<Segment>): string
    decreases |segments|
  {
    if segments == [] then ""
    else "/" + Form(segments[0]) + FormOf(segments[1..])
  }

  // After template expressions have been replaced.
  function AfterTemplates(s: Segment): string {
    if s.Template? then "{param}" else Written(s)
  }

  function Replaced(segments: seq<Segment>): string
    decreases |segments|
  {
    if segments == [] then ""
    else "/" + AfterTemplates(segments[0]) + Replaced(segments[1..])
  }

  lemma WrittenEnds(s: Segment)
    requires ValidSegment(s)
    ensures TightEnd(Written(s))
  {
    match s {
      case Fixed(text) => assert text[|text| - 1] in text;
      case Colon(name) => assert name[|name| - 1] in name;
      case Brace(_) =>
      case Template(_) =>
    }
  }

  lemma {:induction false} RouteEnds(segments: seq<Segment>)
    requires segments != [] && forall s | s in segments :: ValidSegment(s)
    ensures "/" <= RouteOf(segments) && TightEnd(RouteOf(segments))
    decreases |segments|
  {
    var s, rest := segments[0], segments[1..];
    WrittenEnds(s);
    EndOfSum("/", Written(s));
    if rest == [] {
      assert "/" + Written(s) + "" == "/" + Written(s);
    } else {
      assert forall t | t in rest :: t in segments;
      RouteEnds(rest);
      EndOfSum("/" + Written(s), RouteOf(rest));
    }
  }

  predicate TightEnd(s: string) {
    s != "" && !Loose(s[|s| - 1])
  }

  lemma EndOfSum(a: string, b: string)
    requires TightEnd(b)
    ensures TightEnd(a + b)
  {
  }

  lemma {:induction false} TemplatesReplaced(segments: seq<Segment>)
    requires forall s | s in segments :: ValidSegment(s)
    ensures TemplateSub(RouteOf(segments)) == Replaced(segments)
    decreases |segments|
  {
    if segments != [] {
      var s, rest := segments[0], segments[1..];
      assert s in segments && forall t | t in rest :: t in segments;
      TemplatesReplaced(rest);
      OneReplaced(s, RouteOf(rest));
    }
  }

  lemma OneReplaced(s: Segment, rest: string)
    requires ValidSegment(s)
    ensures TemplateSub("/" + Written(s) + rest) == "/" + AfterTemplates(s) + TemplateSub(rest)
  {
    if s.Template? {
      assert "/" + Written(s) + rest == "/" + (Written(s) + rest);
      TemplateSubAppend("/", Written(s) + rest);
      TemplateLead(s.expression, rest);
    } else {
      WrittenNoDollar(s);
      TemplateSubAppend("/" + Written(s), rest);
    }
  }

  lemma WrittenNoDollar(s: Segment)
    requires ValidSegment(s) && !s.Template?
    ensures '$' !in Written(s)
  {
    match s {
      case Fixed(text) => assert forall c | c in text :: Clean(c);
      case Colon(name) => assert forall c | c in ":" + name :: c == ':' || c in name;
      case Brace(name) => assert forall c | c in "{" + name + "}" :: c == '{' || c == '}' || c in name;
    }
  }

  lemma {:induction false} CopiedThrough(text: string, rest: string, previous: char)
    requires forall c | c in text :: c !in "/{"
    requires text != "" && previous == '/' ==> text[0] != ':'
    requires rest == "" || rest[0] == '/'
    ensures PathSub(text + rest, previous) == text + PathSub(rest, previous)
    decreases |text|
  {
    if text == "" {
      assert text + rest == rest;
    } else {
      assert text[0] in text;
      assert (text + rest)[1..] == text[1..] + rest;
      OneCopy(text + rest, previous);
      CopiedThrough(text[1..], rest, text[0]);
      PreviousIrrelevant(rest, text[0], previous);
      assert text == [text[0]] + text[1..];
      Regroup([text[0]], text[1..], PathSub(rest, previous));
    }
  }

  lemma SegmentSub(s: Segment, rest: string, previous: char)
    requires ValidSegment(s) && (rest == "" || rest[0] == '/')
    ensures PathSub("/" + AfterTemplates(s) + rest, previous) == "/" + Form(s) + PathSub(rest, '\0')
  {
    var here := AfterTemplates(s);
    assert "/" + here + rest == "/" + (here + rest);
    assert ("/" + (here + rest))[1..] == here + rest;
    assert !ColonAhead("/" + (here + rest), previous) && !BraceAhead("/" + (here + rest));
    BodySub(s, rest);
    Regroup("/", Form(s), PathSub(rest, '\0'));
  }

  lemma BodySub(s: Segment, rest: string)
    requires ValidSegment(s) && (rest == "" || rest[0] == '/')
    ensures PathSub(AfterTemplates(s) + rest, '/') == Form(s) + PathSub(rest, '\0')
  {
    PreviousIrrelevant(rest, '/', '\0');
    PreviousIrrelevant(rest, '}', '\0');
    if s.Fixed? {
      CopiedThrough(s.text, rest, '/');
    } else if s.Template? {
      ParamAhead(rest, '/');
    } else {
      assert Segments(rest);
      MarkSub(AfterTemplates(s), s.name, rest);
    }
  }

  lemma {:induction false} SegmentsSub(segments: seq<Segment>)
    requires forall s | s in segments :: ValidSegment(s)
    ensures PathSub(Replaced(segments), '\0') == FormOf(segments)
    decreases |segments|
  {
    if segments != [] {
      assert segments[0] in segments && forall t | t in segments[1..] :: t in segments;
      SegmentsSub(segments[1..]);
      SegmentSub(segments[0], Replaced(segments[1..]), '\0');
    }
  }

  lemma HereNoSlash(s: Segment)
    requires ValidSegment(s)
    ensures AfterTemplates(s) != "" && '/' !in AfterTemplates(s) && NoQuery(AfterTemplates(s))
  {
    match s {
      case Fixed(text) => assert forall c | c in text :: c !in "/?#";
      case Colon(name) => assert forall c | c in ":" + name :: c == ':' || c in name;
      case Brace(name) => assert forall c | c in "{" + name + "}" :: c == '{' || c == '}' || c in name;
      case Template(_) =>
    }
  }

  lemma {:induction false} ReplacedShape(segments: seq<Segment>)
    requires forall s | s in segments :: ValidSegment(s)
    ensures ReplacedOk(Replaced(segments), segments != [])
    decreases |segments|
  {
    if segments != [] {
      var s, rest := segments[0], segments[1..];
      assert s in segments && forall t | t in rest :: t in segments;
      HereNoSlash(s);
      ReplacedShape(rest);
      OneMore(AfterTemplates(s), Replaced(rest), rest != []);
    }
  }

  ghost predicate ReplacedOk(r: string, some: bool) {
    && NoDouble(r) && NoQuery(r)
    && if some then "/" <= r && |r| > 1 && r[|r| - 1] != '/' else r == ""
  }

  lemma OneMore(here: string, r: string, some: bool)
    requires here != "" && '/' !in here && NoQuery(here) && ReplacedOk(r, some)
    ensures ReplacedOk("/" + here + r, true)
  {
    assert forall i | 0 <= i < |here| :: here[i] in here;
    assert NoDouble("/" + here);
    NoDoublePrepend("/" + here, r);
  }

  // A route of segments becomes the route in which every parameter is {param}, whatever
  // its style and name, and every fixed segment is as it was.
  lemma SegmentsExact(segments: seq<Segment>, rejects: string -> bool)
    requires segments != [] && forall s | s in segments :: ValidSegment(s)
    ensures Normalize(RouteOf(segments), rejects) == Some(FormOf(segments))
  {
    RouteEnds(segments);
    RootedNormal(RouteOf(segments), rejects);
    EndKept(RouteOf(segments));
    TemplatesReplaced(segments);
    var r := Replaced(segments);
    ReplacedShape(segments);
    CutNothing(r);
    assert Until(r, "/") == 0;
    CollapseFixed(r);
    SegmentsSub(segments);
    FormEnds(segments);
    assert TrimSlashes(FormOf(segments)) == FormOf(segments);
  }

  lemma {:induction false} FormEnds(segments: seq<Segment>)
    requires segments != [] && forall s | s in segments :: ValidSegment(s)
    ensures FormOf(segments) != "" && FormOf(segments)[|FormOf(segments)| - 1] != '/'
    decreases |segments|
  {
    var s, rest := segments[0], segments[1..];
    var form := Form(s);
    assert s in segments && forall t | t in rest :: t in segments;
    assert form[|form| - 1] != '/' by { assert form[|form| - 1] in form; }
    if rest != [] {
      FormEnds(rest);
    }
  }

  // Nothing but white space and quotes is the root.
  lemma NothingIsRoot(left: string, quotes: string, right: string, rejects: string -> bool)
    requires AllSpace(left) && AllQuotes(quotes) && AllSpace(right)
    ensures Normalize(left + (quotes + right), rejects) == Some("/")
  {
    if quotes == "" {
      assert left + (quotes + right) == left + right;
      AllStripped(left + right);
    } else {
      assert (quotes + right)[0] == quotes[0];
      LStripBlank(left, quotes + right);
      RStripBlank(quotes, right);
      QuotesGone(quotes);
    }
  }

  lemma {:induction false} AllStripped(blank: string)
    requires AllSpace(blank)
    ensures LStrip(blank) == ""
  {
    if blank != "" {
      AllStripped(blank[1..]);
    }
  }

  lemma {:induction false} QuotesGone(quotes: string)
    requires AllQuotes(quotes)
    ensures StripQuotesLeft(quotes) == ""
  {
    if quotes != "" {
      QuotesGone(quotes[1..]);
    }
  }
}
