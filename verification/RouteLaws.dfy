// What normalize_route guarantees (code_graph/http_endpoints.py).
module RouteLaws {
  import opened Lists
  import opened PyText
  import opened RouteNormal

  // ---- The shape of the result -----------------------------------------------------------

  lemma TrimOnce(s: string)
    requires |s| > 1 && NoDouble(s)
    ensures TrimSlashes(s) == if s[|s| - 1] == '/' then s[..|s| - 1] else s
    ensures TrimSlashes(s) != "" && TrimSlashes(s)[|TrimSlashes(s)| - 1] != '/'
  {
    assert s[|s| - 2] != '/' || s[(|s| - 2) + 1] != '/';
    assert TrimSlashes(s[..|s| - 1]) == s[..|s| - 1] || s[|s| - 1] != '/';
  }

  lemma NoDoublePrefix(s: string, k: nat)
    requires NoDouble(s) && k <= |s|
    ensures NoDouble(s[..k])
  {
    forall i: nat | i + 1 < k ensures s[..k][i] != '/' || s[..k][i + 1] != '/' {
      assert s[..k][i] == s[i] && s[..k][i + 1] == s[i + 1];
    }
  }

  // The text before slashes are trimmed from its end.
  function Untrimmed(s: string): string {
    PathSub(Collapse(s), '\0')
  }

  lemma UntrimmedShape(s: string)
    requires "/" <= s && NoQuery(s)
    ensures "/" <= Untrimmed(s) && NoDouble(Untrimmed(s)) && NoQuery(Untrimmed(s))
    ensures PathSub(Untrimmed(s), '\0') == Untrimmed(s)
  {
    var collapsed := Collapse(s);
    CollapseNoDouble(s);
    PathSubHead(collapsed, '\0');
    PathSubNoDouble(collapsed, '\0');
    PathSubIdempotent(collapsed, '\0');
    forall c | c in Untrimmed(s) ensures c in s || c in PARAM {
      PathSubChars(collapsed, '\0', c);
      if c !in PARAM { CollapseChars(s, c); }
    }
  }

  lemma FinishShape(s: string)
    requires "/" <= s && NoQuery(s)
    ensures NormalShape(Finish(s))
  {
    var value := Untrimmed(s);
    UntrimmedShape(s);
    if |value| > 1 {
      TrimOnce(value);
      PrefixFixed(value, '\0', |TrimSlashes(value)|);
      NoDoublePrefix(value, |TrimSlashes(value)|);
    } else {
      assert value == "/";
    }
  }

  lemma CutNoQuery(s: string)
    ensures NoQuery(Cut(s))
  {
  }

  lemma RootNormal()
    ensures NormalShape("/")
  {
  }

  // Every normalised route starts with a slash, has no empty segment, no query
  // or fragment, no slash at its end unless it is the root, and no parameter
  // left to rename.
  lemma NormalizeShape(route: string, rejects: string -> bool)
    ensures Normalize(route, rejects).Some? ==> NormalShape(Normalize(route, rejects).value)
  {
    var value := Unquoted(Strip(route));
    if value == "" {
      RootNormal();
    } else {
      var path := if HasScheme(value) then UrlPath(value, rejects) else Some(value);
      if path.Some? {
        CutNoQuery(TemplateSub(path.value));
        FinishShape(Rooted(DropBase(Cut(TemplateSub(path.value)))));
      }
    }
  }

  // ---- When normalising again changes nothing -----------------------------------------------

  predicate HasTemplate(s: string) {
    s != "" && (TemplateAhead(s) || HasTemplate(s[1..]))
  }

  predicate Loose(c: char) {
    IsSpace(c) || c in "'\"`"
  }

  // Nothing at the end to strip and no template expression.
  predicate Settled(s: string) {
    s != "" && !Loose(s[|s| - 1]) && !HasTemplate(s)
  }

  function Dollars(s: string): nat {
    if s == "" then 0 else (if s[0] == '$' then 1 else 0) + Dollars(s[1..])
  }

  lemma {:induction false} DollarsAppend(s: string, t: string)
    ensures Dollars(s + t) == Dollars(s) + Dollars(t)
  {
    if s == "" {
      assert s + t == t;
    } else {
      assert (s + t)[1..] == s[1..] + t;
      DollarsAppend(s[1..], t);
    }
  }

  lemma ParamDollars(rest: string)
    ensures Dollars(PARAM + rest) == Dollars(rest)
  {
    DollarsAppend(PARAM, rest);
    DollarsAppend("{para", "m}");
    assert PARAM == "{para" + "m}";
    DollarsAppend("{pa", "ra");
    assert "{para" == "{pa" + "ra";
    DollarsAppend("{", "pa");
    assert "{pa" == "{" + "pa";
  }

  lemma DollarsSplit(s: string, n: nat)
    requires n <= |s|
    ensures Dollars(s) == Dollars(s[..n]) + Dollars(s[n..])
  {
    DollarsAppend(s[..n], s[n..]);
    assert s == s[..n] + s[n..];
  }

  lemma {:induction false} TemplateSubNone(s: string)
    requires !HasTemplate(s)
    ensures TemplateSub(s) == s
    decreases |s|
  {
    if s != "" {
      TemplateSubNone(s[1..]);
    }
  }

  // Replacing templates removes a dollar sign from a text that has one.
  lemma {:induction false} TemplateSubDollars(s: string)
    ensures Dollars(TemplateSub(s)) <= Dollars(s)
    ensures HasTemplate(s) ==> Dollars(TemplateSub(s)) < Dollars(s)
    decreases |s|
  {
    if s == "" {
    } else if TemplateAhead(s) {
      var end := 3 + Until(s[2..], "}");
      TemplateSubDollars(s[end..]);
      DollarsSplit(s, end);
      assert s[..end][0] == '$';
      ParamDollars(TemplateSub(s[end..]));
    } else {
      TemplateSubDollars(s[1..]);
      assert TemplateSub(s)[1..] == TemplateSub(s[1..]);
    }
  }

  lemma {:induction false} CollapseDollars(s: string)
    ensures Dollars(Collapse(s)) <= Dollars(s)
    decreases |s|
  {
    if s != "" {
      CollapseDollars(s[1..]);
    }
  }

  lemma {:induction false} PathSubDollars(s: string, previous: char)
    ensures Dollars(PathSub(s, previous)) <= Dollars(s)
    decreases |s|
  {
    if s == "" {
    } else if ColonAhead(s, previous) {
      var end := Until(s, "/");
      PathSubDollars(s[end..], s[end - 1]);
      DollarsSplit(s, end);
      ParamDollars(PathSub(s[end..], s[end - 1]));
    } else if BraceAhead(s) {
      var end := 2 + Until(s[1..], "/{}");
      PathSubDollars(s[end..], '}');
      DollarsSplit(s, end);
      ParamDollars(PathSub(s[end..], '}'));
    } else {
      PathSubDollars(s[1..], s[0]);
      assert PathSub(s, previous)[1..] == PathSub(s[1..], s[0]);
    }
  }

  lemma {:induction false} TrimIsPrefix(s: string)
    ensures TrimSlashes(s) <= s
  {
    if s != "" && s[|s| - 1] == '/' {
      TrimIsPrefix(s[..|s| - 1]);
    }
  }

  lemma FinishDollars(s: string)
    ensures Dollars(Finish(s)) <= Dollars(s)
  {
    CollapseDollars(s);
    PathSubDollars(Collapse(s), '\0');
    TrimIsPrefix(Untrimmed(s));
    assert Finish(s) <= Untrimmed(s);
    DollarsSplit(Untrimmed(s), |Finish(s)|);
    assert Untrimmed(s)[..|Finish(s)|] == Finish(s);
  }

  lemma {:induction false} RStripPrefix(s: string)
    ensures RStrip(s) <= s
    ensures (s == "" || !IsSpace(s[|s| - 1])) <==> RStrip(s) == s
  {
    if s != "" && IsSpace(s[|s| - 1]) {
      RStripPrefix(s[..|s| - 1]);
    }
  }

  lemma {:induction false} QuotesPrefix(s: string)
    ensures StripQuotesRight(s) <= s
    ensures (s == "" || s[|s| - 1] !in "'\"`") <==> StripQuotesRight(s) == s
    ensures s != "" && s[0] == '/' ==> "/" <= StripQuotesRight(s)
  {
    if s != "" && s[|s| - 1] in "'\"`" {
      QuotesPrefix(s[..|s| - 1]);
    }
  }

  // Stripping a rooted text leaves a rooted prefix, all of it exactly when its
  // end is not loose.
  lemma StripRooted(s: string)
    requires "/" <= s
    ensures "/" <= Unquoted(Strip(s)) <= s
    ensures Unquoted(Strip(s)) == s <==> !Loose(s[|s| - 1])
  {
    assert LStrip(s) == s;
    RStripKeeps(s, 1);
    RStripPrefix(s);
    var inner := RStrip(s);
    assert "/" <= inner;
    assert StripQuotesLeft(inner) == inner;
    QuotesPrefix(inner);
  }

  // On a rooted route without query, only templates and the final pass matter.
  lemma NormalizeRooted(route: string, rejects: string -> bool)
    requires "/" <= route && NoQuery(route)
    ensures Normalize(route, rejects) == Some(Finish(TemplateSub(Unquoted(Strip(route)))))
  {
    var value := Unquoted(Strip(route));
    StripRooted(route);
    assert value[0] == '/';
    assert !HasScheme(value);
    assert "/" <= TemplateSub(value);
    forall c | c in TemplateSub(value) ensures c !in "?#" {
      TemplateSubChars(value, c);
    }
    CutNothing(TemplateSub(value));
    assert DropBase(TemplateSub(value)) == TemplateSub(value);
  }

  lemma {:induction false} UntilNone(s: string, stop: string)
    requires forall c | c in s :: c !in stop
    ensures Until(s, stop) == |s|
  {
    if s != "" {
      UntilNone(s[1..], stop);
    }
  }

  lemma CutNothing(s: string)
    requires forall c | c in s :: c !in "?#"
    ensures Cut(s) == s
  {
    UntilNone(s, "?");
    assert s[..|s|] == s;
    UntilNone(s, "#");
  }

  lemma FinishNormal(r: string)
    requires NormalShape(r)
    ensures Finish(r) == r
  {
    CollapseFixed(r);
    if |r| > 1 { TrimOnce(r); }
  }

  lemma FinishPrefix(r: string, k: nat)
    requires NormalShape(r) && 0 < k <= |r|
    ensures |Finish(r[..k])| <= k
  {
    NoDoublePrefix(r, k);
    CollapseFixed(r[..k]);
    PrefixFixed(r, '\0', k);
    TrimIsPrefix(r[..k]);
  }

  // A normalised route is kept by normalising it again if and only if it does
  // not end in white space or a quote character and contains no template expression.
  lemma KeptExactly(r: string, rejects: string -> bool)
    requires NormalShape(r)
    ensures Normalize(r, rejects) == Some(r) <==> Settled(r)
  {
    NormalizeRooted(r, rejects);
    StripRooted(r);
    PassKeepsExactly(r, Unquoted(Strip(r)));
  }

  lemma PassKeepsExactly(r: string, value: string)
    requires NormalShape(r) && "/" <= value <= r && (value == r <==> !Loose(r[|r| - 1]))
    ensures Finish(TemplateSub(value)) == r <==> Settled(r)
  {
    assert value == r[..|value|];
    if Loose(r[|r| - 1]) {
      LooseLost(r, |value|);
    } else if HasTemplate(r) {
      TemplateLost(r, |value|);
    } else {
      TemplateSubNone(r);
      FinishNormal(r);
    }
  }

  lemma LooseLost(r: string, k: nat)
    requires NormalShape(r) && 0 < k < |r|
    ensures Finish(TemplateSub(r[..k])) != r
  {
    if HasTemplate(r[..k]) {
      TemplateLost(r, k);
    } else {
      TemplateSubNone(r[..k]);
      FinishPrefix(r, k);
    }
  }

  lemma TemplateLost(r: string, k: nat)
    requires k <= |r| && HasTemplate(r[..k])
    ensures Finish(TemplateSub(r[..k])) != r
  {
    TemplateSubDollars(r[..k]);
    FinishDollars(TemplateSub(r[..k]));
    DollarsSplit(r, k);
  }

  // ---- Routes without white space, quotes and dollar signs ------------------------------------

  predicate Clean(c: char) {
    !Loose(c) && c != '$'
  }

  ghost predicate CleanText(s: string) {
    forall c | c in s :: Clean(c)
  }

  lemma {:induction false} WithoutChars(s: string, unwanted: string, c: char)
    requires c in Without(s, unwanted)
    ensures c in s
  {
    if s != "" && c != s[0] {
      WithoutChars(s[1..], unwanted, c);
    } else if s[0] in unwanted {
      WithoutChars(s[1..], unwanted, c);
    }
  }

  lemma CleanPath(value: string, rejects: string -> bool)
    requires HasScheme(value) && CleanText(value)
    ensures UrlPath(value, rejects).Some? ==> CleanText(UrlPath(value, rejects).value)
  {
    var start := if "http://" <= value then 7 else 8;
    var after := Without(value[start..], "\t\r\n");
    forall c | c in after ensures Clean(c) {
      WithoutChars(value[start..], "\t\r\n", c);
    }
  }

  lemma {:induction false} LStripChars(s: string, c: char)
    requires c in LStrip(s)
    ensures c in s
  {
    if s != "" && IsSpace(s[0]) { LStripChars(s[1..], c); }
  }

  lemma {:induction false} QuotesLeftChars(s: string, c: char)
    requires c in StripQuotesLeft(s)
    ensures c in s
  {
    if s != "" && s[0] in "'\"`" { QuotesLeftChars(s[1..], c); }
  }

  lemma StripChars(s: string, c: char)
    requires c in Unquoted(Strip(s))
    ensures c in s
  {
    var inner := Strip(s);
    QuotesPrefix(StripQuotesLeft(inner));
    QuotesLeftChars(inner, c);
    RStripPrefix(LStrip(s));
    LStripChars(s, c);
  }

  lemma CleanFinish(s: string)
    requires CleanText(s)
    ensures CleanText(Finish(s))
  {
    TrimIsPrefix(Untrimmed(s));
    forall c | c in Finish(s) ensures Clean(c) {
      assert c in Untrimmed(s);
      UntrimmedIsClean(s, c);
    }
  }

  lemma UntrimmedIsClean(s: string, c: char)
    requires CleanText(s) && c in Untrimmed(s)
    ensures Clean(c)
  {
    PathSubChars(Collapse(s), '\0', c);
    if c !in PARAM { CollapseChars(s, c); }
  }

  lemma {:induction false} CleanHasNoTemplate(s: string)
    requires '$' !in s
    ensures !HasTemplate(s)
  {
    if s != "" {
      assert s[0] in s && s[0] != "${"[0];
      CleanHasNoTemplate(s[1..]);
    }
  }

  lemma CleanFromPath(path: string)
    requires CleanText(path)
    ensures CleanText(FromPath(path))
  {
    var replaced := TemplateSub(path);
    forall c | c in replaced ensures Clean(c) { TemplateSubChars(path, c); }
    CleanCut(replaced);
    CleanRooted(Cut(replaced));
    CleanFinish(Rooted(DropBase(Cut(replaced))));
  }

  lemma CleanCut(s: string)
    requires CleanText(s)
    ensures CleanText(Cut(s))
  {
  }

  lemma CleanRooted(s: string)
    requires CleanText(s)
    ensures CleanText(Rooted(DropBase(s)))
  {
    assert forall c | c in DropBase(s) :: c in s;
  }

  lemma CleanValue(route: string)
    requires CleanText(route)
    ensures CleanText(Unquoted(Strip(route)))
  {
    forall c | c in Unquoted(Strip(route)) ensures Clean(c) { StripChars(route, c); }
  }

  lemma CleanNormalize(route: string, rejects: string -> bool)
    requires CleanText(route)
    ensures Normalize(route, rejects).Some? ==> CleanText(Normalize(route, rejects).value)
  {
    var value := Unquoted(Strip(route));
    CleanValue(route);
    if value != "" {
      var path := if HasScheme(value) then UrlPath(value, rejects) else Some(value);
      if HasScheme(value) { CleanPath(value, rejects); }
      if path.Some? {
        CleanFromPath(path.value);
      }
    }
  }

  // On every route without white space, quote characters and dollar signs,
  // normalising is idempotent.
  lemma NormalizeIdempotent(route: string, rejects: string -> bool)
    requires CleanText(route) && Normalize(route, rejects).Some?
    ensures Normalize(Normalize(route, rejects).value, rejects) == Normalize(route, rejects)
  {
    var r := Normalize(route, rejects).value;
    NormalizeShape(route, rejects);
    CleanNormalize(route, rejects);
    CleanHasNoTemplate(r);
    assert r[|r| - 1] in r;
    KeptExactly(r, rejects);
  }
}
