// Where the scanners of call text stop, and where they find nothing
// (code_graph/http_endpoints.py).
module CallArguments {
  import opened Lists
  import opened PyText
  import opened CallScanner

  // ---- The first argument ---------------------------------------------------------------

  // Text in which brackets of any kind are closed again.
  datatype Item = Char(c: char) | Quoted(quote: char, units: seq<Unit>)
                | Bracketed(opening: char, inside: seq<Item>, closing: char)

  // At the top there is no comma; within brackets and strings there may be.
  ghost predicate Argument(items: seq<Item>, top: bool)
    decreases items, 1
  {
    items != [] ==> ArgumentItem(items[0], top) && Argument(items[1..], top)
  }

  ghost predicate ArgumentItem(item: Item, top: bool)
    decreases item, 0
  {
    match item
    case Char(c) => !IsQuote(c) && c !in "([{)]}" && (top ==> c != ',')
    case Quoted(quote, units) => IsQuote(quote) && Fits(units, quote)
    case Bracketed(opening, inside, closing) => opening in "([{" && closing in ")]}" && Argument(inside, false)
  }

  function Text(items: seq<Item>): string
    decreases items, 1
  {
    if items == [] then "" else ItemText(items[0]) + Text(items[1..])
  }

  function ItemText(item: Item): string
    decreases item, 0
  {
    match item
    case Char(c) => [c]
    case Quoted(quote, units) => QuotedLiteral(quote, units)
    case Bracketed(opening, inside, closing) => [opening] + Text(inside) + [closing]
  }

  lemma {:induction false} ArgumentGoesOn(s: string, i: nat, items: seq<Item>, depth: nat)
    requires Argument(items, depth == 0) && Here(s, i, Text(items))
    ensures ArgumentEnd(s, i, depth, Outside) == ArgumentEnd(s, i + |Text(items)|, depth, Outside)
    decreases items, 1
  {
    if items != [] {
      var first := ItemText(items[0]);
      HereSplit(s, i, first, Text(items[1..]));
      ItemGoesOn(s, i, items[0], depth);
      ArgumentGoesOn(s, i + |first|, items[1..], depth);
    }
  }

  lemma {:induction false} ItemGoesOn(s: string, i: nat, item: Item, depth: nat)
    requires ArgumentItem(item, depth == 0) && Here(s, i, ItemText(item))
    ensures ArgumentEnd(s, i, depth, Outside) == ArgumentEnd(s, i + |ItemText(item)|, depth, Outside)
    decreases item, 0
  {
    match item {
      case Char(c) =>
        HereChar(s, i, c);
        CharGoesOn(s, i, depth);
      case Quoted(quote, units) =>
        ArgumentEndText(s, i, quote, units, depth);
      case Bracketed(opening, inside, closing) =>
        BracketsHere(s, i, opening, Text(inside), closing);
        ArgumentGoesOn(s, i + 1, inside, depth + 1);
        BracketsGoOn(s, i, |Text(inside)|, depth);
    }
  }

  lemma CharGoesOn(s: string, i: nat, depth: nat)
    requires i < |s| && !IsQuote(s[i]) && s[i] !in "([{)]}" && (depth == 0 ==> s[i] != ',')
    ensures ArgumentEnd(s, i, depth, Outside) == ArgumentEnd(s, i + 1, depth, Outside)
  {
    assert s[i] !in "([{" && s[i] !in ")]}";
  }

  lemma BracketsGoOn(s: string, i: nat, n: nat, depth: nat)
    requires i + 1 + n < |s| && s[i] in "([{" && s[i + 1 + n] in ")]}"
    requires ArgumentEnd(s, i + 1, depth + 1, Outside) == ArgumentEnd(s, i + 1 + n, depth + 1, Outside)
    ensures ArgumentEnd(s, i, depth, Outside) == ArgumentEnd(s, i + n + 2, depth, Outside)
  {
  }

  lemma BracketsHere(s: string, i: nat, opening: char, text: string, closing: char)
    requires Here(s, i, [opening] + text + [closing])
    ensures s[i] == opening && Here(s, i + 1, text) && i + 1 + |text| < |s| && s[i + 1 + |text|] == closing
  {
    HereSplit(s, i, [opening] + text, [closing]);
    HereSplit(s, i, [opening], text);
    HereChar(s, i, opening);
    HereChar(s, i + 1 + |text|, closing);
  }

  // The first argument ends at the first comma outside of strings and brackets, and only
  // there.
  lemma FirstArgumentExact(items: seq<Item>, more: string)
    requires Argument(items, true)
    ensures FirstArgumentOf(Text(items)) == Text(items)
    ensures FirstArgumentOf(Text(items) + ("," + more)) == Text(items)
  {
    OnlyArgument(Text(items), items);
    CommaEnds(Text(items), "," + more, items);
  }

  lemma OnlyArgument(text: string, items: seq<Item>)
    requires Argument(items, true) && text == Text(items)
    ensures FirstArgumentOf(text) == text
  {
    assert Here(text, 0, text);
    ArgumentGoesOn(text, 0, items, 0);
  }

  lemma CommaEnds(text: string, rest: string, items: seq<Item>)
    requires Argument(items, true) && text == Text(items) && rest != "" && rest[0] == ','
    ensures FirstArgumentOf(text + rest) == text
  {
    var s := text + rest;
    assert Here(s, 0, text);
    ArgumentGoesOn(s, 0, items, 0);
    assert s[|text|] == ',';
  }

  // ---- The body of a call --------------------------------------------------------------------

  // A call ends at the parenthesis that closes it, or with the text if none does.
  lemma CallEndExact(before: string, inside: seq<Piece>, after: string)
    requires Balanced(inside)
    ensures (var s := before + ("(" + (Render(inside) + (")" + after)));
             BodyEnd(s, |before|, 0, Outside) == |before| + 1 + |Render(inside)|)
    ensures (var s := before + ("(" + Render(inside)); BodyEnd(s, |before|, 0, Outside) == |s|)
  {
    CallHere(before, Render(inside), after);
    ClosedEnd(before + ("(" + (Render(inside) + (")" + after))), |before|, inside);
    var open := before + ("(" + Render(inside));
    assert Here(open, |before|, "(" + Render(inside));
    OpenEnd(open, |before|, inside);
  }

  lemma ClosedEnd(s: string, i: nat, inside: seq<Piece>)
    requires Balanced(inside)
    requires Here(s, i, "(") && Here(s, i + 1, Render(inside)) && Here(s, i + 1 + |Render(inside)|, ")")
    ensures BodyEnd(s, i, 0, Outside) == i + 1 + |Render(inside)|
  {
    HereChar(s, i, '(');
    HereChar(s, i + 1 + |Render(inside)|, ')');
    BodyEndPieces(s, i + 1, inside, 1);
  }

  lemma OpenEnd(s: string, i: nat, inside: seq<Piece>)
    requires Balanced(inside) && Here(s, i, "(" + Render(inside)) && |s| == i + 1 + |Render(inside)|
    ensures BodyEnd(s, i, 0, Outside) == |s|
  {
    HereSplit(s, i, "(", Render(inside));
    HereChar(s, i, '(');
    BodyEndPieces(s, i + 1, inside, 1);
  }

  // ---- Where there is no string literal ------------------------------------------------------

  // An argument that does not begin with a quote has no text.
  lemma NoQuoteNoText(blank: string, expression: string)
    requires AllSpace(blank) && (expression == "" || !(IsSpace(expression[0]) || IsQuote(expression[0])))
    ensures QuotedText(blank + expression) == None
  {
    if expression == "" {
      assert blank + expression == blank;
      BlankStripped(blank);
    } else {
      LStripBlank(blank, expression);
      RStripKeeps(expression, 1);
      assert RStrip(expression)[..1][0] == expression[..1][0];
    }
  }

  lemma {:induction false} BlankStripped(blank: string)
    requires AllSpace(blank)
    ensures LStrip(blank) == ""
  {
    if blank != "" {
      BlankStripped(blank[1..]);
    }
  }

  // Neither has a literal that is not closed.
  lemma OpenLiteralNoText(quote: char, units: seq<Unit>)
    requires IsQuote(quote) && Fits(units, quote)
    requires (var text := [quote] + Literal(units); !IsSpace(text[|text| - 1]))
    ensures QuotedText([quote] + Literal(units)) == None
  {
    var text := [quote] + Literal(units);
    assert Strip(text) == text;
    assert Here(text, 1, Literal(units));
    OpenLiteralEnd(text, 1, quote, units);
  }

  lemma {:induction false} OpenLiteralEnd(s: string, i: nat, quote: char, units: seq<Unit>)
    requires Fits(units, quote) && Here(s, i, Literal(units)) && i + |Literal(units)| == |s|
    ensures QuoteEnd(s, i, quote, false) == None
    decreases |units|
  {
    if units != [] {
      var first := UnitText(units[0]);
      assert units[0] in units;
      HereSplit(s, i, first, Literal(units[1..]));
      QuoteEndUnit(s, i, quote, units[0]);
      OpenLiteralEnd(s, i + |first|, quote, units[1..]);
    }
  }
}
