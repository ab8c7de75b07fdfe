/** The parser of cssselect/parser.py over a `TokenStream`: the methods follow
    `parse`, `parse_selector_group`, `parse_selector`, `parse_simple_selector`
    and `parse_attrib` statement by statement, and each is proved to return,
    and to leave the stream in, exactly what the corresponding function of
    `Grammar` says. */
module Parser {
  import opened Wrappers
  import opened Tokens
  import opened Selectors
  import opened Stream
  import opened Grammar
  import Tokenizer

  /** `parse_simple_selector(stream, inside_negation)`: the type selector,
      then the qualifier loop, then the test that something was consumed. */
  method ParseSimpleSelector(stream: TokenStream, insideNegation: bool) returns (r: Outcome<Compound>)
    requires stream.Valid()
    modifies stream
    ensures stream.Valid()
    ensures (r, stream.State()) == SimpleSelectorAt(stream.tokens, old(stream.State()), insideNegation)
    decreases |stream.tokens| - |stream.used|, if insideNegation then 0 else 1, 5
  {
    var skipped := stream.SkipWhitespace();
    if skipped.Fail? {
      return Err(skipped.error);
    }
    var peek :- stream.Peek();
    var consumed := |stream.used|;
    var result :- ParseElement(stream, peek);
    ghost var head := result;
    ghost var start := stream.State();
    var pseudo: Option<string> := None;
    while true
      invariant stream.Valid()
      invariant consumed <= |stream.used|
      invariant QualifiersAt(stream.tokens, stream.State(), result, pseudo, insideNegation, consumed)
             == QualifiersAt(stream.tokens, start, head, None, insideNegation, consumed)
      decreases |stream.tokens| - |stream.used|
    {
      peek :- stream.Peek();
      if EndsCompound(peek, insideNegation) {
        break;
      }
      if Truthy(pseudo) {
        return Err(SyntaxError(PseudoElementNotAtEnd));
      }
      var qualified :- ParseQualifier(stream, peek.value, result, pseudo, insideNegation);
      result, pseudo := qualified.0, qualified.1;
    }
    if consumed == |stream.used| {
      return Err(SyntaxError(ExpectedSelector));
    }
    return Ok((result, pseudo));
  }

  /** The type selector at the start of `parse_simple_selector`, given the
      token just peeked at. */
  method ParseElement(stream: TokenStream, peek: Option<Token>) returns (r: Outcome<Tree>)
    requires stream.Valid()
    requires peek == if |stream.used| < |stream.tokens| then Some(stream.tokens[|stream.used|]) else None
    modifies stream
    ensures stream.Valid()
    ensures (r, stream.State()) == ElementAt(stream.tokens, old(stream.State()))
  {
    if peek.Some? && (peek.value.text == "*" || peek.value.kind == SymbolKind) {
      var next := stream.Next();
      var bar :- stream.Peek();
      if bar.Some? && bar.value.text == "|" {
        var _ := stream.Next();
        var element :- stream.NextSymbolOrStar();
        return Ok(Element(next.value.value.text, element.text));
      }
      return Ok(Element("*", next.value.value.text));
    }
    return Ok(Element("*", "*"));
  }

  /** One turn of the qualifier loop of `parse_simple_selector`, given the
      token just peeked at. */
  method ParseQualifier(stream: TokenStream, peek: Token, result: Tree, pseudo: Option<string>, insideNegation: bool) returns (r: Outcome<Compound>)
    requires stream.Valid() && |stream.used| < |stream.tokens| && peek == stream.tokens[|stream.used|]
    modifies stream
    ensures stream.Valid()
    ensures (r, stream.State()) == QualifierAt(stream.tokens, old(stream.State()), result, pseudo, insideNegation)
    decreases |stream.tokens| - |stream.used|, if insideNegation then 0 else 1, 3
  {
    var text := peek.text;
    if text == "#" || text == "." || text == "::" {
      var _ := stream.Next();
      r := ParseSymbolQualifier(stream, text, result, pseudo);
    } else if text == "[" {
      var _ := stream.Next();
      r := ParseAttribQualifier(stream, result, pseudo);
    } else if text == ":" {
      var _ := stream.Next();
      r := ParsePseudoClass(stream, result, pseudo, insideNegation);
    } else {
      r := Err(SyntaxError(ExpectedSelector));
    }
  }

  /** After a `#`, `.` or `::`: the id, class or pseudo-element name. */
  method ParseSymbolQualifier(stream: TokenStream, marker: string, result: Tree, pseudo: Option<string>) returns (r: Outcome<Compound>)
    requires stream.Valid()
    modifies stream
    ensures stream.Valid()
    ensures (r, stream.State()) == SymbolQualifierAt(stream.tokens, old(stream.State()), marker, result, pseudo)
  {
    var name := stream.NextSymbol();
    if name.Err? {
      r := Err(name.error);
    } else if marker == "#" {
      r := Ok((Hash(result, name.value.text), pseudo));
    } else if marker == "." {
      r := Ok((Class(result, name.value.text), pseudo));
    } else {
      r := Ok((result, Some(name.value.text)));
    }
  }

  /** After a `:`: a legacy pseudo-element, a pseudo-class, or a functional
      pseudo-class with its argument. */
  method ParsePseudoClass(stream: TokenStream, result: Tree, pseudo: Option<string>, insideNegation: bool) returns (r: Outcome<Compound>)
    requires stream.Valid()
    modifies stream
    ensures stream.Valid()
    ensures (r, stream.State()) == PseudoClassAt(stream.tokens, old(stream.State()), result, pseudo, insideNegation)
    decreases |stream.tokens| - |stream.used|, if insideNegation then 0 else 1, 2
  {
    var ident := stream.NextSymbol();
    if ident.Err? {
      r := Err(ident.error);
    } else if IsLegacyPseudoElement(ident.value.text) {
      r := Ok((result, Some(ident.value.text)));
    } else {
      var peek := stream.Peek();
      if peek.Err? {
        r := Err(peek.error);
      } else if !(peek.value.Some? && peek.value.value.text == "(") {
        r := Ok((Pseudo(result, ident.value.text), pseudo));
      } else {
        r := ParseFunctionalPseudo(stream, result, ident.value.text, pseudo, insideNegation);
      }
    }
  }

  /** At the `(` after a pseudo-class name. */
  method ParseFunctionalPseudo(stream: TokenStream, result: Tree, name: string, pseudo: Option<string>, insideNegation: bool) returns (r: Outcome<Compound>)
    requires stream.Valid() && |stream.used| < |stream.tokens|
    modifies stream
    ensures stream.Valid()
    ensures (r, stream.State()) == FunctionalPseudoAt(stream.tokens, old(stream.State()), result, name, pseudo, insideNegation)
    decreases |stream.tokens| - |stream.used|, if insideNegation then 0 else 1, 1
  {
    var _ := stream.Next();
    :- stream.SkipWhitespace();
    if name == "not" {
      r := ParseNegation(stream, result, pseudo, insideNegation);
    } else {
      r := ParseFunction(stream, result, name, pseudo);
    }
  }

  /** The argument of `:not(` and its closing parenthesis. */
  method ParseNegation(stream: TokenStream, result: Tree, pseudo: Option<string>, insideNegation: bool) returns (r: Outcome<Compound>)
    requires stream.Valid()
    modifies stream
    ensures stream.Valid()
    ensures (r, stream.State()) == NegationAt(stream.tokens, old(stream.State()), result, pseudo, insideNegation)
    decreases |stream.tokens| - |stream.used|, if insideNegation then 0 else 1, 0
  {
    if insideNegation {
      return Err(SyntaxError(NestedNot));
    }
    var argument :- ParseSimpleSelector(stream, true);
    if Truthy(argument.1) {
      return Err(SyntaxError(PseudoElementInNot));
    }
    :- ParseCloseParen(stream);
    return Ok((Negation(result, argument.0), pseudo));
  }

  /** The single symbol or string argument of a functional pseudo-class and
      its closing parenthesis. */
  method ParseFunction(stream: TokenStream, result: Tree, name: string, pseudo: Option<string>) returns (r: Outcome<Compound>)
    requires stream.Valid()
    modifies stream
    ensures stream.Valid()
    ensures (r, stream.State()) == FunctionAt(stream.tokens, old(stream.State()), result, name, pseudo)
  {
    var peek :- stream.Peek();
    if !(peek.Some? && IsArgumentToken(peek.value)) {
      return Err(SyntaxError(ExpectedArgument));
    }
    var _ := stream.Next();
    :- ParseCloseParen(stream);
    return Ok((Function(result, name, peek.value), pseudo));
  }

  /** Optional whitespace, then a `)`. */
  method ParseCloseParen(stream: TokenStream) returns (r: Status<Error>)
    requires stream.Valid()
    modifies stream
    ensures stream.Valid()
    ensures (r, stream.State()) == CloseParenAt(stream.tokens, old(stream.State()))
  {
    r := stream.SkipWhitespace();
    if r.Fail? {
      return;
    }
    var next := stream.Next();
    if next.Err? {
      return Fail(next.error);
    }
    if next.value.None? || next.value.value.text != ")" {
      return Fail(SyntaxError(ExpectedCloseParen));
    }
    return Pass;
  }

  /** After a `[`: the attribute selector and its closing `]`. */
  method ParseAttribQualifier(stream: TokenStream, result: Tree, pseudo: Option<string>) returns (r: Outcome<Compound>)
    requires stream.Valid()
    modifies stream
    ensures stream.Valid()
    ensures (r, stream.State()) == AttribQualifierAt(stream.tokens, old(stream.State()), result, pseudo)
  {
    var attrib :- ParseAttrib(result, stream);
    var next :- stream.Next();
    if next.None? || next.value.text != "]" {
      return Err(SyntaxError(ExpectedCloseBracket));
    }
    return Ok((attrib, pseudo));
  }

  /** `parse_attrib(selector, stream)`, after the `[`: the attribute name and
      its namespace. */
  method ParseAttrib(selector: Tree, stream: TokenStream) returns (r: Outcome<Tree>)
    requires stream.Valid()
    modifies stream
    ensures stream.Valid()
    ensures (r, stream.State()) == AttribAt(stream.tokens, old(stream.State()), selector)
  {
    var skipped := stream.SkipWhitespace();
    if skipped.Fail? {
      return Err(skipped.error);
    }
    var attrib := stream.NextSymbolOrStar();
    if attrib.Err? {
      return Err(attrib.error);
    }
    var peek := stream.Peek();
    var pipe := peek.Ok? && peek.value.Some? && peek.value.value.text == "|";
    if peek.Err? {
      r := Err(peek.error);
    } else if attrib.value.text == "*" && !pipe {
      r := Err(SyntaxError(ExpectedPipe));
    } else if pipe {
      var _ := stream.Next();
      var name := stream.NextSymbol();
      if name.Err? {
        r := Err(name.error);
      } else {
        r := ParseAttribTest(selector, attrib.value.text, name.value.text, stream);
      }
    } else {
      r := ParseAttribTest(selector, "*", attrib.value.text, stream);
    }
  }

  /** The rest of `parse_attrib`: `]`, or an operator and a value. */
  method ParseAttribTest(selector: Tree, namespace: string, attrib: string, stream: TokenStream) returns (r: Outcome<Tree>)
    requires stream.Valid()
    modifies stream
    ensures stream.Valid()
    ensures (r, stream.State()) == AttribTestAt(stream.tokens, old(stream.State()), selector, namespace, attrib)
  {
    var skipped := stream.SkipWhitespace();
    if skipped.Fail? {
      return Err(skipped.error);
    }
    var peek :- stream.Peek();
    if peek.Some? && peek.value.text == "]" {
      return Ok(Attrib(selector, namespace, attrib, "exists", None));
    }
    var op := stream.Next();
    if !(op.value.Some? && IsAttribOperator(op.value.value.text)) {
      return Err(SyntaxError(OperatorExpected));
    }
    :- stream.SkipWhitespace();
    var value :- stream.Next();
    if !(value.Some? && IsArgumentToken(value.value)) {
      return Err(SyntaxError(ExpectedStringOrSymbol));
    }
    :- stream.SkipWhitespace();
    return Ok(Attrib(selector, namespace, attrib, op.value.value.text, value));
  }

  /** `parse_selector(stream)`. */
  method ParseSelector(stream: TokenStream) returns (r: Outcome<Compound>)
    requires stream.Valid()
    modifies stream
    ensures stream.Valid()
    ensures (r, stream.State()) == SelectorAt(stream.tokens, old(stream.State()))
  {
    var first :- ParseSimpleSelector(stream, false);
    var result, pseudo := first.0, first.1;
    ghost var start := stream.State();
    while true
      invariant stream.Valid()
      invariant CombinatorsAt(stream.tokens, stream.State(), result, pseudo)
             == CombinatorsAt(stream.tokens, start, first.0, first.1)
      decreases |stream.tokens| - |stream.used|
    {
      :- stream.SkipWhitespace();
      var peek :- stream.Peek();
      if peek.None? || peek.value.text == "," {
        break;
      }
      if Truthy(pseudo) {
        return Err(SyntaxError(PseudoElementNotAtEnd));
      }
      var combinator;
      if IsCombinatorText(peek.value.text) {
        var next := stream.Next();
        combinator := next.value.value.text;
        :- stream.SkipWhitespace();
      } else {
        combinator := " ";
      }
      var next :- ParseSimpleSelector(stream, false);
      result, pseudo := CombinedSelector(result, combinator, next.0), next.1;
    }
    return Ok((result, pseudo));
  }

  /** `parse_selector_group(stream)`, drained into a list. */
  method ParseSelectorGroup(stream: TokenStream) returns (r: Outcome<seq<Selector>>)
    requires stream.Valid()
    modifies stream
    ensures stream.Valid()
    ensures (r, stream.State()) == GroupAt(stream.tokens, old(stream.State()))
  {
    var skipped := stream.SkipWhitespace();
    if skipped.Fail? {
      return Err(skipped.error);
    }
    ghost var start := stream.State();
    var selectors: seq<Selector> := [];
    while true
      invariant stream.Valid()
      invariant GroupLoopAt(stream.tokens, stream.State(), selectors) == GroupLoopAt(stream.tokens, start, [])
      decreases |stream.tokens| - |stream.used|
    {
      var selector :- ParseSelector(stream);
      selectors := selectors + [Selector(selector.0, selector.1)];
      var peek :- stream.Peek();
      if peek.Some? && peek.value.text == "," {
        var _ := stream.Next();
        :- stream.SkipWhitespace();
      } else {
        break;
      }
    }
    return Ok(selectors);
  }

  /** `parse(css)`. */
  method Parse(css: string, decode: string -> Option<string>) returns (r: Outcome<seq<Selector>>)
    ensures r == Parsed(css, decode)
  {
    var word := ElementFastPath(css);
    if word.Some? {
      return Ok([Selector(Element("*", word.value), None)]);
    }
    var id := QualifiedFastPath(css, '#');
    if id.Some? {
      return Ok([Selector(Hash(Element("*", OrStar(id.value.0)), id.value.1), None)]);
    }
    var className := QualifiedFastPath(css, '.');
    if className.Some? {
      return Ok([Selector(Class(Element("*", OrStar(className.value.0)), className.value.1), None)]);
    }
    var tokens, failure := Tokenizer.Tokenize(css, decode);
    var stream := new TokenStream(tokens, failure);
    r := ParseSelectorGroup(stream);
    if r.Err? && r.error.SyntaxError? {
      var peek := stream.Peek();
      if peek.Err? {
        return Err(peek.error);
      }
    }
  }
}
