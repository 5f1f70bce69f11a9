// The common form of HTTP routes (code_graph/http_endpoints.py).
module RouteNormal {
  import opened Lists
  import opened PyText

  const PARAM := "{param}"

  // Length of the longest prefix of s without a character of stop.
  function Until(s: string, stop: string): (n: nat)
    ensures n <= |s|
    ensures n < |s| ==> s[n] in stop
    ensures forall i | 0 <= i < n :: s[i] !in stop
  {
    if s == "" || s[0] in stop then 0 else 1 + Until(s[1..], stop)
  }

  // ---- The library calls of normalize_route -----------------------------------------

  function StripQuotesLeft(s: string): string {
    if s != "" && s[0] in "'\"`" then StripQuotesLeft(s[1..]) else s
  }

  function StripQuotesRight(s: string): string {
    if s != "" && s[|s| - 1] in "'\"`" then StripQuotesRight(s[..|s| - 1]) else s
  }

  function Unquoted(s: string): string {
    StripQuotesRight(StripQuotesLeft(s))
  }

  function Without(s: string, unwanted: string): string {
    if s == "" then "" else (if s[0] in unwanted then "" else [s[0]]) + Without(s[1..], unwanted)
  }

  function Cut(s: string): string {
    var noQuery := s[..Until(s, "?")];
    noQuery[..Until(noQuery, "#")]
  }

  predicate HasScheme(s: string) {
    "http://" <= s || "https://" <= s
  }

  // urlsplit(value).path; None where the library refuses the host.
  function UrlPath(s: string, rejects: string -> bool): Option<string>
    requires HasScheme(s)
  {
    var after := Without(s[if "http://" <= s then 7 else 8..], "\t\r\n");
    var host := Until(after, "/?#");
    if rejects(after[..host]) then None else Some(Cut(after[host..]))
  }

  // A template expression at the start of s.
  predicate TemplateAhead(s: string) {
    "${" <= s && 0 < Until(s[2..], "}") < |s| - 2
  }

  // TEMPLATE_EXPRESSION.sub
  function TemplateSub(s: string): string
    decreases |s|
  {
    if s == "" then ""
    else if TemplateAhead(s) then PARAM + TemplateSub(s[3 + Until(s[2..], "}")..])
    else [s[0]] + TemplateSub(s[1..])
  }

  function Collapse(s: string): string {
    if s == "" then ""
    else if |s| > 1 && s[0] == '/' && s[1] == '/' then Collapse(s[1..])
    else [s[0]] + Collapse(s[1..])
  }

  predicate ColonAhead(s: string, previous: char) {
    previous == '/' && |s| > 1 && s[0] == ':' && s[1] != '/'
  }

  predicate BraceAhead(s: string) {
    |s| > 1 && s[0] == '{' && 0 < Until(s[1..], "/{}") < |s| - 1 && s[1 + Until(s[1..], "/{}")] == '}'
  }

  // PATH_PARAMETER.sub on the text that follows the character previous.
  function PathSub(s: string, previous: char): string
    decreases |s|
  {
    if s == "" then ""
    else if ColonAhead(s, previous) then PARAM + PathSub(s[Until(s, "/")..], s[Until(s, "/") - 1])
    else if BraceAhead(s) then PARAM + PathSub(s[2 + Until(s[1..], "/{}")..], '}')
    else [s[0]] + PathSub(s[1..], s[0])
  }

  function TrimSlashes(s: string): string {
    if s != "" && s[|s| - 1] == '/' then TrimSlashes(s[..|s| - 1]) else s
  }

  // ---- normalize_route ---------------------------------------------------------------

  function DropBase(s: string): string {
    var slash := Until(s, "/");
    if 0 < slash < |s| && PARAM <= s[..slash] then s[slash..] else s
  }

  function Rooted(s: string): string {
    if "/" <= s then s else "/" + s
  }

  function Finish(s: string): string {
    var value := PathSub(Collapse(s), '\0');
    if |value| > 1 then TrimSlashes(value) else value
  }

  function FromPath(path: string): string {
    Finish(Rooted(DropBase(Cut(TemplateSub(path)))))
  }

  // None stands for the error urlsplit raises on a host it rejects.
  function Normalize(route: string, rejects: string -> bool): Option<string> {
    var value := Unquoted(Strip(route));
    if value == "" then Some("/")
    else
      match (if HasScheme(value) then UrlPath(value, rejects) else Some(value))
      case None => None
      case Some(path) => Some(FromPath(path))
  }

  // ---- The shape of every normalised route --------------------------------------------

  ghost predicate NoDouble(s: string) {
    forall i: nat | i + 1 < |s| :: s[i] != '/' || s[i + 1] != '/'
  }

  ghost predicate NoQuery(s: string) {
    '?' !in s && '#' !in s
  }

  ghost predicate NormalShape(s: string) {
    && "/" <= s
    && NoDouble(s)
    && NoQuery(s)
    && (s != "/" ==> s[|s| - 1] != '/')
    && PathSub(s, '\0') == s
  }

  lemma {:induction false} TemplateSubChars(s: string, c: char)
    requires c in TemplateSub(s)
    ensures c in s || c in PARAM
    decreases |s|
  {
    if TemplateAhead(s) {
      var rest := s[3 + Until(s[2..], "}")..];
      if c in TemplateSub(rest) { TemplateSubChars(rest, c); }
    } else if c != s[0] {
      TemplateSubChars(s[1..], c);
    }
  }

  lemma {:induction false} CollapseChars(s: string, c: char)
    requires c in Collapse(s)
    ensures c in s
    decreases |s|
  {
    if c != s[0] || (|s| > 1 && s[0] == '/' && s[1] == '/') {
      CollapseChars(s[1..], c);
    }
  }

  lemma {:induction false} PathSubChars(s: string, previous: char, c: char)
    requires c in PathSub(s, previous)
    ensures c in s || c in PARAM
    decreases |s|
  {
    if ColonAhead(s, previous) {
      var end := Until(s, "/");
      if c !in PARAM { PathSubChars(s[end..], s[end - 1], c); }
    } else if BraceAhead(s) {
      var end := 2 + Until(s[1..], "/{}");
      if c !in PARAM { PathSubChars(s[end..], '}', c); }
    } else if c != s[0] {
      PathSubChars(s[1..], s[0], c);
    }
  }

  lemma NoDoubleFrom(s: string, n: nat)
    requires NoDouble(s) && n <= |s|
    ensures NoDouble(s[n..])
  {
    forall i: nat | i + 1 < |s[n..]| ensures s[n..][i] != '/' || s[n..][i + 1] != '/' {
      assert s[n..][i] == s[n + i] && s[n..][i + 1] == s[(n + i) + 1];
    }
  }

  lemma {:induction false} CollapseNoDouble(s: string)
    ensures NoDouble(Collapse(s))
    ensures s != "" ==> Collapse(s) != "" && Collapse(s)[0] == s[0]
    decreases |s|
  {
    if s != "" {
      CollapseNoDouble(s[1..]);
    }
  }

  lemma {:induction false} CollapseFixed(s: string)
    requires NoDouble(s)
    ensures Collapse(s) == s
    decreases |s|
  {
    if s != "" {
      assert |s| > 1 ==> s[0] != '/' || s[0 + 1] != '/';
      NoDoubleFrom(s, 1);
      CollapseFixed(s[1..]);
    }
  }

  lemma PathSubHead(s: string, previous: char)
    requires s != ""
    ensures PathSub(s, previous) != ""
    ensures PathSub(s, previous)[0] == '/' <==> s[0] == '/'
  {
  }

  lemma NoDoublePrepend(a: string, b: string)
    requires NoDouble(b) && a != "" && NoDouble(a) && (b != "" && a[|a| - 1] == '/' ==> b[0] != '/')
    ensures NoDouble(a + b)
  {
    forall i: nat | i + 1 < |a + b| ensures (a + b)[i] != '/' || (a + b)[i + 1] != '/' {
      if i >= |a| {
        assert (a + b)[i] == b[i - |a|] && (a + b)[i + 1] == b[i - |a| + 1];
      }
    }
  }

  lemma {:induction false} PathSubNoDouble(s: string, previous: char)
    requires NoDouble(s)
    ensures NoDouble(PathSub(s, previous))
    decreases |s|
  {
    if s == "" {
    } else if ColonAhead(s, previous) {
      var end := Until(s, "/");
      NoDoubleFrom(s, end);
      PathSubNoDouble(s[end..], s[end - 1]);
      NoDoublePrepend(PARAM, PathSub(s[end..], s[end - 1]));
    } else if BraceAhead(s) {
      var end := 2 + Until(s[1..], "/{}");
      NoDoubleFrom(s, end);
      PathSubNoDouble(s[end..], '}');
      NoDoublePrepend(PARAM, PathSub(s[end..], '}'));
    } else {
      NoDoubleFrom(s, 1);
      PathSubNoDouble(s[1..], s[0]);
      if |s| > 1 {
        PathSubHead(s[1..], s[0]);
        assert s[0] != '/' || s[0 + 1] != '/';
      }
      NoDoublePrepend([s[0]], PathSub(s[1..], s[0]));
    }
  }

  // ---- The parameter pass is idempotent -------------------------------------------------

  lemma PreviousIrrelevant(s: string, a: char, b: char)
    requires s == "" || s[0] != ':' || (a == '/' <==> b == '/')
    ensures PathSub(s, a) == PathSub(s, b)
  {
  }

  // Away from a slash, everything up to the next separator is copied.
  lemma {:induction false} SameStop(s: string, previous: char)
    requires previous != '/'
    ensures var n, out := Until(s, "/{}"), PathSub(s, previous);
        && Until(out, "/{}") == n && n <= |out|
        && (n == |s| <==> n == |out|)
        && (n < |s| ==> out[n] == s[n])
    decreases |s|
  {
    if s != "" && s[0] !in "/{}" {
      SameStop(s[1..], s[0]);
      assert PathSub(s, previous)[1..] == PathSub(s[1..], s[0]);
    }
  }

  lemma ParamAhead(rest: string, previous: char)
    ensures PathSub(PARAM + rest, previous) == PARAM + PathSub(rest, '}')
  {
    var s := PARAM + rest;
    assert s[1..] == "param}" + rest;
    UntilAt(s[1..], "/{}", 5);
    assert s[7..] == rest;
  }

  lemma {:induction false} UntilAt(s: string, stop: string, n: nat)
    requires n < |s| && s[n] in stop && forall i | 0 <= i < n :: s[i] !in stop
    ensures Until(s, stop) == n
  {
    if n > 0 {
      UntilAt(s[1..], stop, n - 1);
    }
  }

  lemma CopiedBraceStays(s: string)
    requires s != "" && s[0] == '{' && !BraceAhead(s)
    ensures !BraceAhead([s[0]] + PathSub(s[1..], s[0]))
  {
    SameStop(s[1..], s[0]);
    var out := PathSub(s[1..], s[0]);
    assert ([s[0]] + out)[1..] == out;
  }

  lemma {:induction false} PathSubIdempotent(s: string, previous: char)
    ensures PathSub(PathSub(s, previous), previous) == PathSub(s, previous)
    decreases |s|
  {
    if s == "" {
    } else if ColonAhead(s, previous) {
      var end := Until(s, "/");
      var rest := PathSub(s[end..], s[end - 1]);
      PathSubIdempotent(s[end..], s[end - 1]);
      if s[end..] != "" { PathSubHead(s[end..], s[end - 1]); }
      PreviousIrrelevant(rest, s[end - 1], '}');
      ParamAhead(rest, previous);
    } else if BraceAhead(s) {
      var end := 2 + Until(s[1..], "/{}");
      PathSubIdempotent(s[end..], '}');
      ParamAhead(PathSub(s[end..], '}'), previous);
    } else {
      PathSubIdempotent(s[1..], s[0]);
      CopyStays(s, previous);
    }
  }

  lemma CopyStays(s: string, previous: char)
    requires s != "" && !ColonAhead(s, previous) && !BraceAhead(s)
    ensures PathSub(PathSub(s, previous), previous) == [s[0]] + PathSub(PathSub(s[1..], s[0]), s[0])
  {
    var rest := PathSub(s[1..], s[0]);
    assert PathSub(s, previous) == [s[0]] + rest;
    assert ([s[0]] + rest)[1..] == rest;
    if s[1..] != "" { PathSubHead(s[1..], s[0]); }
    assert !ColonAhead([s[0]] + rest, previous);
    if s[0] == '{' { CopiedBraceStays(s); }
  }

  // Any beginning of a text the parameter pass keeps is kept too.
  lemma {:induction false} PrefixFixed(s: string, previous: char, k: nat)
    requires PathSub(s, previous) == s && k <= |s|
    ensures PathSub(s[..k], previous) == s[..k]
    decreases |s|
  {
    if k == 0 {
    } else if BraceAhead(s) {
      FixedBrace(s, previous);
      PrefixOfParam(s, previous, k, 2 + Until(s[1..], "/{}"));
    } else {
      FixedCopy(s, previous);
      PrefixFixed(s[1..], s[0], k - 1);
      NothingAheadInPrefix(s, previous, k);
      assert s[..k][1..] == s[1..][..k - 1];
    }
  }

  lemma FixedBrace(s: string, previous: char)
    requires BraceAhead(s) && PathSub(s, previous) == s
    ensures s == PARAM + PathSub(s[2 + Until(s[1..], "/{}")..], '}')
  {
  }

  lemma ColonChanges(s: string, previous: char)
    requires ColonAhead(s, previous)
    ensures PathSub(s, previous) != s
  {
    assert PathSub(s, previous)[0] == '{';
  }

  lemma FixedCopy(s: string, previous: char)
    requires s != "" && !BraceAhead(s) && PathSub(s, previous) == s
    ensures !ColonAhead(s, previous) && PathSub(s[1..], s[0]) == s[1..]
  {
    if ColonAhead(s, previous) {
      ColonChanges(s, previous);
      assert false;
    }
    assert PathSub(s, previous)[1..] == PathSub(s[1..], s[0]);
  }

  lemma NothingAheadInPrefix(s: string, previous: char, k: nat)
    requires 0 < k <= |s| && !ColonAhead(s, previous) && !BraceAhead(s)
    ensures !ColonAhead(s[..k], previous) && !BraceAhead(s[..k])
  {
    if BraceAhead(s[..k]) {
      UntilAt(s[1..], "/{}", Until(s[..k][1..], "/{}"));
      assert false;
    }
  }

  lemma {:induction false} PrefixOfParam(s: string, previous: char, k: nat, end: nat)
    requires 0 < k <= |s| && BraceAhead(s) && end == 2 + Until(s[1..], "/{}")
    requires s == PARAM + PathSub(s[end..], '}')
    ensures PathSub(s[..k], previous) == s[..k]
    decreases |s|, 0
  {
    UntilAt(s[1..], "/{}", 5);
    assert s[7..] == PathSub(s[7..], '}');
    if k >= 7 {
      assert s[..k] == PARAM + s[7..][..k - 7];
      PrefixFixed(s[7..], '}', k - 7);
      ParamAhead(s[7..][..k - 7], previous);
    } else {
      var tail := s[..k][1..];
      assert tail == "param"[..k - 1];
      PlainCopied(tail, '{');
      assert Until(tail, "/{}") == |tail| by { if Until(tail, "/{}") < |tail| { assert false; } }
    }
  }

  lemma {:induction false} PlainCopied(s: string, previous: char)
    requires ':' !in s && '{' !in s
    ensures PathSub(s, previous) == s
  {
    if s != "" {
      PlainCopied(s[1..], s[0]);
    }
  }
}
