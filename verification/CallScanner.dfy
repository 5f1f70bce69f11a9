// Reading the first string argument of a call (code_graph/http_endpoints.py).
module CallScanner {
  import opened Lists
  import opened PyText

  predicate IsQuote(c: char) {
    c == '\'' || c == '"' || c == '`'
  }

  // What a scanner remembers inside or outside of a quoted string.
  datatype Quoting = Outside | Inside(quote: char, escaped: bool)

  function InQuote(state: Quoting, c: char): Quoting
    requires state.Inside?
  {
    if state.escaped then state.(escaped := false)
    else if c == '\\' then state.(escaped := true)
    else if c == state.quote then Outside
    else state
  }

  // ---- The three scanners, as functions of the position and the state -------------

  // Index of the parenthesis that closes the call, |s| if there is none.
  function BodyEnd(s: string, i: nat, depth: int, state: Quoting): (end: nat)
    requires i <= |s|
    ensures i <= end <= |s|
    decreases |s| - i
  {
    if i == |s| then i
    else if state.Inside? then BodyEnd(s, i + 1, depth, InQuote(state, s[i]))
    else if IsQuote(s[i]) then BodyEnd(s, i + 1, depth, Inside(s[i], false))
    else if s[i] == '(' then BodyEnd(s, i + 1, depth + 1, Outside)
    else if s[i] == ')' then if depth - 1 == 0 then i else BodyEnd(s, i + 1, depth - 1, Outside)
    else BodyEnd(s, i + 1, depth, Outside)
  }

  // Index of the comma that ends the first argument, |s| if there is none.
  function ArgumentEnd(s: string, i: nat, depth: nat, state: Quoting): (end: nat)
    requires i <= |s|
    ensures i <= end <= |s|
    decreases |s| - i
  {
    if i == |s| then i
    else if state.Inside? then ArgumentEnd(s, i + 1, depth, InQuote(state, s[i]))
    else if IsQuote(s[i]) then ArgumentEnd(s, i + 1, depth, Inside(s[i], false))
    else if s[i] in "([{" then ArgumentEnd(s, i + 1, depth + 1, Outside)
    else if s[i] in ")]}" && depth > 0 then ArgumentEnd(s, i + 1, depth - 1, Outside)
    else if s[i] == ',' && depth == 0 then i
    else ArgumentEnd(s, i + 1, depth, Outside)
  }

  // Index of the quote that closes a string.
  function QuoteEnd(s: string, i: nat, quote: char, escaped: bool): (end: Option<nat>)
    requires i <= |s|
    ensures end.Some? ==> i <= end.value < |s|
    decreases |s| - i
  {
    if i == |s| then None
    else if escaped then QuoteEnd(s, i + 1, quote, false)
    else if s[i] == '\\' then QuoteEnd(s, i + 1, quote, true)
    else if s[i] == quote then Some(i)
    else QuoteEnd(s, i + 1, quote, false)
  }

  // ---- The methods -----------------------------------------------------------------

  // _call_body
  method CallBody(content: string, opening: nat) returns (body: string, end: nat)
    requires opening < |content|
    ensures end == BodyEnd(content, opening, 0, Outside)
    ensures body == if opening + 1 <= end then content[opening + 1..end] else ""
  {
    var depth: int := 0;
    var quote: Option<char> := None;
    var escaped := false;
    for index := opening to |content|
      invariant BodyEnd(content, index, depth, if quote.Some? then Inside(quote.value, escaped) else Outside)
             == BodyEnd(content, opening, 0, Outside)
      invariant quote.None? ==> !escaped
    {
      var c := content[index];
      if quote.Some? {
        if escaped {
          escaped := false;
        } else if c == '\\' {
          escaped := true;
        } else if c == quote.value {
          quote := None;
        }
      } else if IsQuote(c) {
        quote := Some(c);
      } else if c == '(' {
        depth := depth + 1;
      } else if c == ')' {
        depth := depth - 1;
        if depth == 0 {
          return if opening + 1 <= index then content[opening + 1..index] else "", index;
        }
      }
    }
    body, end := content[opening + 1..], |content|;
  }

  function FirstArgumentOf(callBody: string): string {
    callBody[..ArgumentEnd(callBody, 0, 0, Outside)]
  }

  // _first_argument
  method FirstArgument(callBody: string) returns (argument: string)
    ensures argument == FirstArgumentOf(callBody)
  {
    var depth: nat := 0;
    var quote: Option<char> := None;
    var escaped := false;
    for index := 0 to |callBody|
      invariant ArgumentEnd(callBody, index, depth, if quote.Some? then Inside(quote.value, escaped) else Outside)
             == ArgumentEnd(callBody, 0, 0, Outside)
      invariant quote.None? ==> !escaped
    {
      var c := callBody[index];
      if quote.Some? {
        if escaped {
          escaped := false;
        } else if c == '\\' {
          escaped := true;
        } else if c == quote.value {
          quote := None;
        }
      } else if IsQuote(c) {
        quote := Some(c);
      } else if c in "([{" {
        depth := depth + 1;
      } else if c in ")]}" && depth > 0 {
        depth := depth - 1;
      } else if c == ',' && depth == 0 {
        return callBody[..index];
      }
    }
    argument := callBody;
  }

  function QuotedText(expression: string): Option<string> {
    var stripped := Strip(expression);
    if stripped == [] || !IsQuote(stripped[0]) then None
    else
      match QuoteEnd(stripped, 1, stripped[0], false)
      case Some(end) => Some(stripped[1..end])
      case None => None
  }

  // _quoted_argument
  method QuotedArgument(expression: string) returns (text: Option<string>)
    ensures text == QuotedText(expression)
  {
    var stripped := Strip(expression);
    if stripped == [] || !IsQuote(stripped[0]) {
      return None;
    }
    var quote := stripped[0];
    var escaped := false;
    for index := 1 to |stripped|
      invariant QuoteEnd(stripped, index, quote, escaped) == QuoteEnd(stripped, 1, quote, false)
    {
      var c := stripped[index];
      if escaped {
        escaped := false;
      } else if c == '\\' {
        escaped := true;
      } else if c == quote {
        return Some(stripped[1..index]);
      }
    }
    text := None;
  }

  // ---- Well-formed call text ----------------------------------------------------------

  // A character of a string literal, or a backslash and the character it escapes.
  datatype Unit = Bare(c: char) | Escaped(c: char)

  ghost predicate Fits(units: seq<Unit>, quote: char) {
    forall u | u in units && u.Bare? :: u.c != quote && u.c != '\\'
  }

  function UnitText(u: Unit): string {
    if u.Bare? then [u.c] else ['\\', u.c]
  }

  function Literal(units: seq<Unit>): string {
    if units == [] then "" else UnitText(units[0]) + Literal(units[1..])
  }

  function QuotedLiteral(quote: char, units: seq<Unit>): string {
    [quote] + Literal(units) + [quote]
  }

  // Text with balanced parentheses, in which strings may contain anything.
  datatype Piece = Plain(c: char) | Text(quote: char, units: seq<Unit>) | Parens(inside: seq<Piece>)

  ghost predicate Balanced(pieces: seq<Piece>)
    decreases pieces, 1
  {
    pieces != [] ==> BalancedPiece(pieces[0]) && Balanced(pieces[1..])
  }

  ghost predicate BalancedPiece(piece: Piece)
    decreases piece, 0
  {
    match piece
    case Plain(c) => !IsQuote(c) && c != '(' && c != ')'
    case Text(quote, units) => IsQuote(quote) && Fits(units, quote)
    case Parens(inside) => Balanced(inside)
  }

  function Render(pieces: seq<Piece>): string
    decreases pieces, 1
  {
    if pieces == [] then "" else RenderPiece(pieces[0]) + Render(pieces[1..])
  }

  function RenderPiece(piece: Piece): string
    decreases piece, 0
  {
    match piece
    case Plain(c) => [c]
    case Text(quote, units) => QuotedLiteral(quote, units)
    case Parens(inside) => "(" + Render(inside) + ")"
  }

  // s continues with t at position i.
  predicate Here(s: string, i: nat, t: string) {
    i + |t| <= |s| && s[i..i + |t|] == t
  }

  lemma HereSplit(s: string, i: nat, t: string, u: string)
    requires Here(s, i, t + u)
    ensures Here(s, i, t) && Here(s, i + |t|, u)
  {
    assert s[i..i + |t + u|][..|t|] == t && s[i..i + |t + u|][|t|..] == u;
  }

  lemma HereChar(s: string, i: nat, c: char)
    requires Here(s, i, [c])
    ensures s[i] == c
  {
    assert s[i..i + 1][0] == c;
  }

  // ---- Scanning well-formed text ---------------------------------------------------------

  lemma LiteralHere(s: string, i: nat, quote: char, units: seq<Unit>)
    requires units != [] && Fits(units, quote) && Here(s, i, Literal(units) + [quote])
    ensures Here(s, i, UnitText(units[0])) && Here(s, i + |UnitText(units[0])|, Literal(units[1..]) + [quote])
    ensures units[0].Bare? ==> units[0].c != quote && units[0].c != '\\'
    ensures Fits(units[1..], quote)
    ensures |Literal(units)| == |UnitText(units[0])| + |Literal(units[1..])|
  {
    assert Literal(units) + [quote] == UnitText(units[0]) + (Literal(units[1..]) + [quote]);
    HereSplit(s, i, UnitText(units[0]), Literal(units[1..]) + [quote]);
    assert units[0] in units;
  }

  lemma UnitHere(s: string, i: nat, u: Unit)
    requires Here(s, i, UnitText(u))
    ensures if u.Bare? then s[i] == u.c else s[i] == '\\' && s[i + 1] == u.c
  {
    assert s[i..i + |UnitText(u)|] == UnitText(u);
  }

  lemma BodyEndUnit(s: string, i: nat, quote: char, u: Unit, depth: int)
    requires Here(s, i, UnitText(u)) && (u.Bare? ==> u.c != quote && u.c != '\\')
    ensures BodyEnd(s, i, depth, Inside(quote, false)) == BodyEnd(s, i + |UnitText(u)|, depth, Inside(quote, false))
  {
    UnitHere(s, i, u);
  }

  lemma ArgumentEndUnit(s: string, i: nat, quote: char, u: Unit, depth: nat)
    requires Here(s, i, UnitText(u)) && (u.Bare? ==> u.c != quote && u.c != '\\')
    ensures ArgumentEnd(s, i, depth, Inside(quote, false))
         == ArgumentEnd(s, i + |UnitText(u)|, depth, Inside(quote, false))
  {
    UnitHere(s, i, u);
  }

  lemma QuoteEndUnit(s: string, i: nat, quote: char, u: Unit)
    requires Here(s, i, UnitText(u)) && (u.Bare? ==> u.c != quote && u.c != '\\')
    ensures QuoteEnd(s, i, quote, false) == QuoteEnd(s, i + |UnitText(u)|, quote, false)
  {
    UnitHere(s, i, u);
  }

  lemma {:induction false} BodyEndLiteral(s: string, i: nat, quote: char, units: seq<Unit>, depth: int)
    requires IsQuote(quote) && Fits(units, quote) && Here(s, i, Literal(units) + [quote])
    ensures BodyEnd(s, i, depth, Inside(quote, false)) == BodyEnd(s, i + |Literal(units)| + 1, depth, Outside)
    decreases |units|
  {
    if units == [] {
      assert Literal(units) + [quote] == [quote];
      HereChar(s, i, quote);
    } else {
      var first := UnitText(units[0]);
      LiteralHere(s, i, quote, units);
      BodyEndUnit(s, i, quote, units[0], depth);
      BodyEndLiteral(s, i + |first|, quote, units[1..], depth);
    }
  }

  // Balanced text inside the call does not end it.
  lemma {:induction false} BodyEndPieces(s: string, i: nat, pieces: seq<Piece>, depth: int)
    requires depth >= 1 && Balanced(pieces) && Here(s, i, Render(pieces))
    ensures BodyEnd(s, i, depth, Outside) == BodyEnd(s, i + |Render(pieces)|, depth, Outside)
    decreases pieces, 1
  {
    if pieces != [] {
      var first := RenderPiece(pieces[0]);
      HereSplit(s, i, first, Render(pieces[1..]));
      BodyEndPiece(s, i, pieces[0], depth);
      BodyEndPieces(s, i + |first|, pieces[1..], depth);
    }
  }

  lemma {:induction false} BodyEndPiece(s: string, i: nat, piece: Piece, depth: int)
    requires depth >= 1 && BalancedPiece(piece) && Here(s, i, RenderPiece(piece))
    ensures BodyEnd(s, i, depth, Outside) == BodyEnd(s, i + |RenderPiece(piece)|, depth, Outside)
    decreases piece, 0
  {
    match piece {
      case Plain(c) =>
        HereChar(s, i, c);
      case Text(quote, units) =>
        BodyEndText(s, i, quote, units, depth);
      case Parens(inside) =>
        ParensHere(s, i, Render(inside));
        BodyEndPieces(s, i + 1, inside, depth + 1);
    }
  }

  lemma ParensHere(s: string, i: nat, text: string)
    requires Here(s, i, "(" + text + ")")
    ensures s[i] == '(' && Here(s, i + 1, text) && i + 1 + |text| < |s| && s[i + 1 + |text|] == ')'
  {
    HereSplit(s, i, "(" + text, ")");
    HereSplit(s, i, "(", text);
    HereChar(s, i, '(');
    HereChar(s, i + 1 + |text|, ')');
  }

  lemma BodyEndText(s: string, i: nat, quote: char, units: seq<Unit>, depth: int)
    requires IsQuote(quote) && Fits(units, quote) && Here(s, i, QuotedLiteral(quote, units))
    ensures BodyEnd(s, i, depth, Outside) == BodyEnd(s, i + |QuotedLiteral(quote, units)|, depth, Outside)
  {
    assert QuotedLiteral(quote, units) == [quote] + (Literal(units) + [quote]);
    HereSplit(s, i, [quote], Literal(units) + [quote]);
    HereChar(s, i, quote);
    BodyEndLiteral(s, i + 1, quote, units, depth);
  }

  lemma {:induction false} BodyEndBlank(s: string, i: nat, blank: string, depth: int)
    requires AllSpace(blank) && Here(s, i, blank)
    ensures BodyEnd(s, i, depth, Outside) == BodyEnd(s, i + |blank|, depth, Outside)
    decreases |blank|
  {
    if blank != [] {
      assert blank == [blank[0]] + blank[1..];
      HereSplit(s, i, [blank[0]], blank[1..]);
      HereChar(s, i, blank[0]);
      BodyEndBlank(s, i + 1, blank[1..], depth);
    }
  }

  // A call: "(", blanks, a string literal, any balanced text, ")".
  function Inner(blank: string, quote: char, units: seq<Unit>, rest: seq<Piece>): string {
    blank + QuotedLiteral(quote, units) + Render(rest)
  }

  function Call(before: string, blank: string, quote: char, units: seq<Unit>, rest: seq<Piece>, after: string): string {
    before + ("(" + (Inner(blank, quote, units, rest) + (")" + after)))
  }

  // The body of a call is exactly what stands between its parentheses.
  lemma CallBodyExact(before: string, blank: string, quote: char, units: seq<Unit>, rest: seq<Piece>, after: string)
    requires IsQuote(quote) && Fits(units, quote) && AllSpace(blank) && Balanced(rest)
    ensures var s := Call(before, blank, quote, units, rest, after);
        var inner := Inner(blank, quote, units, rest);
        && BodyEnd(s, |before|, 0, Outside) == |before| + 1 + |inner|
        && s[|before| + 1..|before| + 1 + |inner|] == inner
  {
    var s := Call(before, blank, quote, units, rest, after);
    var inner := Inner(blank, quote, units, rest);
    var i := |before|;
    CallHere(before, inner, after);
    HereChar(s, i, '(');
    HereChar(s, i + 1 + |inner|, ')');
    BodyEndInner(s, i + 1, blank, quote, units, rest);
  }

  lemma CallHere(before: string, inner: string, after: string)
    ensures Here(before + ("(" + (inner + (")" + after))), |before|, "(")
    ensures Here(before + ("(" + (inner + (")" + after))), |before| + 1, inner)
    ensures Here(before + ("(" + (inner + (")" + after))), |before| + 1 + |inner|, ")")
  {
    var s := before + ("(" + (inner + (")" + after)));
    var i := |before|;
    assert Here(s, i, "(" + (inner + (")" + after)));
    HereSplit(s, i, "(", inner + (")" + after));
    HereSplit(s, i + 1, inner, ")" + after);
    HereSplit(s, i + 1 + |inner|, ")", after);
  }

  lemma BodyEndInner(s: string, i: nat, blank: string, quote: char, units: seq<Unit>, rest: seq<Piece>)
    requires IsQuote(quote) && Fits(units, quote) && AllSpace(blank) && Balanced(rest)
    requires Here(s, i, Inner(blank, quote, units, rest))
    ensures Skips(s, i, i + |Inner(blank, quote, units, rest)|)
  {
    var literal, more := QuotedLiteral(quote, units), Render(rest);
    InnerHere(s, i, blank, literal, more);
    PartsSkip(s, i, blank, quote, units, rest);
    SkipsThree(s, i, blank, literal, more);
  }

  lemma PartsSkip(s: string, i: nat, blank: string, quote: char, units: seq<Unit>, rest: seq<Piece>)
    requires IsQuote(quote) && Fits(units, quote) && AllSpace(blank) && Balanced(rest)
    requires (var literal := QuotedLiteral(quote, units);
              Here(s, i, blank) && Here(s, i + |blank|, literal) && Here(s, i + |blank| + |literal|, Render(rest)))
    ensures (var literal, more := QuotedLiteral(quote, units), Render(rest);
             && Skips(s, i, i + |blank|) && Skips(s, i + |blank|, i + |blank| + |literal|)
             && Skips(s, i + |blank| + |literal|, i + |blank| + |literal| + |more|))
  {
    SkipsBlank(s, i, blank);
    SkipsText(s, i + |blank|, quote, units);
    SkipsPieces(s, i + |blank| + |QuotedLiteral(quote, units)|, rest);
  }

  lemma SkipsThree(s: string, i: nat, a: string, b: string, c: string)
    requires Skips(s, i, i + |a|) && Skips(s, i + |a|, i + |a| + |b|)
    requires Skips(s, i + |a| + |b|, i + |a| + |b| + |c|)
    ensures Skips(s, i, i + |a + b + c|)
  {
    SkipsOn(s, i, i + |a|, i + |a| + |b|, i + |a| + |b| + |c|);
  }

  lemma SkipsOn(s: string, i: nat, j: nat, k: nat, l: nat)
    requires Skips(s, i, j) && Skips(s, j, k) && Skips(s, k, l)
    ensures Skips(s, i, l)
  {
  }

  lemma InnerHere(s: string, i: nat, a: string, b: string, c: string)
    requires Here(s, i, a + b + c)
    ensures Here(s, i, a) && Here(s, i + |a|, b) && Here(s, i + |a| + |b|, c)
    ensures i + |a + b + c| == i + |a| + |b| + |c|
  {
    HereSplit(s, i, a + b, c);
    HereSplit(s, i, a, b);
  }

  // Nothing between i and j ends the call.
  ghost predicate Skips(s: string, i: nat, j: nat) {
    i <= |s| && j <= |s| && BodyEnd(s, i, 1, Outside) == BodyEnd(s, j, 1, Outside)
  }

  lemma SkipsBlank(s: string, i: nat, blank: string)
    requires AllSpace(blank) && Here(s, i, blank)
    ensures Skips(s, i, i + |blank|)
  {
    BodyEndBlank(s, i, blank, 1);
  }

  lemma SkipsText(s: string, i: nat, quote: char, units: seq<Unit>)
    requires IsQuote(quote) && Fits(units, quote) && Here(s, i, QuotedLiteral(quote, units))
    ensures Skips(s, i, i + |QuotedLiteral(quote, units)|)
  {
    BodyEndText(s, i, quote, units, 1);
  }

  lemma SkipsPieces(s: string, i: nat, pieces: seq<Piece>)
    requires Balanced(pieces) && Here(s, i, Render(pieces))
    ensures Skips(s, i, i + |Render(pieces)|)
  {
    BodyEndPieces(s, i, pieces, 1);
  }

  lemma {:induction false} ArgumentEndLiteral(s: string, i: nat, quote: char, units: seq<Unit>, depth: nat)
    requires IsQuote(quote) && Fits(units, quote) && Here(s, i, Literal(units) + [quote])
    ensures ArgumentEnd(s, i, depth, Inside(quote, false)) == ArgumentEnd(s, i + |Literal(units)| + 1, depth, Outside)
    decreases |units|
  {
    if units == [] {
      assert Literal(units) + [quote] == [quote];
      HereChar(s, i, quote);
    } else {
      var first := UnitText(units[0]);
      LiteralHere(s, i, quote, units);
      ArgumentEndUnit(s, i, quote, units[0], depth);
      ArgumentEndLiteral(s, i + |first|, quote, units[1..], depth);
    }
  }

  lemma {:induction false} ArgumentEndBlank(s: string, i: nat, blank: string)
    requires AllSpace(blank) && Here(s, i, blank)
    ensures ArgumentEnd(s, i, 0, Outside) == ArgumentEnd(s, i + |blank|, 0, Outside)
    decreases |blank|
  {
    if blank != [] {
      assert blank == [blank[0]] + blank[1..];
      HereSplit(s, i, [blank[0]], blank[1..]);
      HereChar(s, i, blank[0]);
      ArgumentEndBlank(s, i + 1, blank[1..]);
    }
  }

  // The first argument contains the whole literal, commas in it or not.
  lemma FirstArgumentKeepsLiteral(blank: string, quote: char, units: seq<Unit>, more: string)
    requires IsQuote(quote) && Fits(units, quote) && AllSpace(blank)
    ensures blank + QuotedLiteral(quote, units) <= FirstArgumentOf(blank + QuotedLiteral(quote, units) + more)
  {
    var literal := QuotedLiteral(quote, units);
    var s := blank + literal + more;
    assert Here(s, 0, blank + literal);
    HereSplit(s, 0, blank, literal);
    ArgumentEndBlank(s, 0, blank);
    ArgumentEndText(s, |blank|, quote, units, 0);
    BeginsWith(blank + literal, more, ArgumentEnd(s, 0, 0, Outside));
  }

  lemma ArgumentEndText(s: string, i: nat, quote: char, units: seq<Unit>, depth: nat)
    requires IsQuote(quote) && Fits(units, quote) && Here(s, i, QuotedLiteral(quote, units))
    ensures ArgumentEnd(s, i, depth, Outside) == ArgumentEnd(s, i + |QuotedLiteral(quote, units)|, depth, Outside)
  {
    assert QuotedLiteral(quote, units) == [quote] + (Literal(units) + [quote]);
    HereSplit(s, i, [quote], Literal(units) + [quote]);
    HereChar(s, i, quote);
    ArgumentEndLiteral(s, i + 1, quote, units, depth);
  }

  lemma BeginsWith(head: string, more: string, n: nat)
    requires |head| <= n <= |head + more|
    ensures head <= (head + more)[..n]
  {
  }

  lemma {:induction false} QuoteEndLiteral(s: string, i: nat, quote: char, units: seq<Unit>)
    requires IsQuote(quote) && Fits(units, quote) && Here(s, i, Literal(units) + [quote])
    ensures QuoteEnd(s, i, quote, false) == Some(i + |Literal(units)|)
    decreases |units|
  {
    if units == [] {
      assert Literal(units) + [quote] == [quote];
      HereChar(s, i, quote);
    } else {
      var first := UnitText(units[0]);
      LiteralHere(s, i, quote, units);
      QuoteEndUnit(s, i, quote, units[0]);
      QuoteEndLiteral(s, i + |first|, quote, units[1..]);
    }
  }

  // Any expression that begins with a string literal yields the text between its quotes.
  lemma QuotedTextExact(blank: string, quote: char, units: seq<Unit>, more: string)
    requires IsQuote(quote) && Fits(units, quote) && AllSpace(blank)
    ensures QuotedText(blank + QuotedLiteral(quote, units) + more) == Some(Literal(units))
  {
    var literal := QuotedLiteral(quote, units);
    LiteralEnds(quote, units);
    StripKeeps(blank, literal, more);
    QuotedAtStart(Strip(blank + literal + more), quote, units);
  }

  lemma LiteralEnds(quote: char, units: seq<Unit>)
    requires IsQuote(quote)
    ensures (var literal := QuotedLiteral(quote, units);
             literal != [] && !IsSpace(literal[0]) && !IsSpace(literal[|literal| - 1]))
  {
  }

  // Stripping leaves a text with neither blanks before it nor at its ends in front.
  lemma StripKeeps(blank: string, text: string, more: string)
    requires AllSpace(blank) && text != [] && !IsSpace(text[0]) && !IsSpace(text[|text| - 1])
    ensures Here(Strip(blank + text + more), 0, text)
  {
    assert blank + text + more == blank + (text + more);
    LStripBlank(blank, text + more);
    RStripKeeps(text + more, |text|);
    assert (text + more)[..|text|] == text;
  }

  lemma QuotedAtStart(stripped: string, quote: char, units: seq<Unit>)
    requires IsQuote(quote) && Fits(units, quote) && Here(stripped, 0, QuotedLiteral(quote, units))
    ensures stripped != [] && stripped[0] == quote
    ensures QuoteEnd(stripped, 1, quote, false) == Some(1 + |Literal(units)|)
    ensures 1 + |Literal(units)| <= |stripped| && stripped[1..1 + |Literal(units)|] == Literal(units)
  {
    assert QuotedLiteral(quote, units) == [quote] + (Literal(units) + [quote]);
    HereSplit(stripped, 0, [quote], Literal(units) + [quote]);
    HereChar(stripped, 0, quote);
    QuoteEndLiteral(stripped, 1, quote, units);
    HereSplit(stripped, 1, Literal(units), [quote]);
  }

  // For every call whose first argument begins with a string literal, with any
  // escapes in it and any balanced text after it, the three scanners together
  // return exactly the text between the quotes.
  lemma FirstStringArgument(before: string, blank: string, quote: char, units: seq<Unit>, rest: seq<Piece>,
                            after: string)
    requires IsQuote(quote) && Fits(units, quote) && AllSpace(blank) && Balanced(rest)
    ensures var s := Call(before, blank, quote, units, rest, after);
        var end := BodyEnd(s, |before|, 0, Outside);
        |before| + 1 <= end && QuotedText(FirstArgumentOf(s[|before| + 1..end])) == Some(Literal(units))
  {
    CallBodyExact(before, blank, quote, units, rest, after);
    var inner := Inner(blank, quote, units, rest);
    FirstArgumentKeepsLiteral(blank, quote, units, Render(rest));
    var argument := FirstArgumentOf(inner);
    var head := blank + QuotedLiteral(quote, units);
    assert argument == head + argument[|head|..];
    QuotedTextExact(blank, quote, units, argument[|head|..]);
  }
}
