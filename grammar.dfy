/** The recursive-descent parser of cssselect/parser.py as functions on a
    `Cursor`: each function takes the token list and the stream state before a
    parse step and returns what the step returns (or raises) and the state
    after it. The loops of the source become recursive functions that take the
    loop variables as parameters. The parser methods are proved to compute
    exactly these functions. */
module Grammar {
  import opened Wrappers
  import opened Text
  import opened Tokens
  import opened Selectors
  import opened Stream
  import Tokenizer

  /** A compound selector and the pseudo-element that ended it, as returned by
      `parse_simple_selector` and `parse_selector`. */
  type Compound = (Tree, Option<string>)

  predicate IsCombinatorText(t: string) { t == "+" || t == ">" || t == "~" }

  lemma CombinatorsAgree(t: string)
    ensures t == " " || IsCombinatorText(t) <==> t in Combinators
  {
  }

  predicate IsAttribOperator(t: string) {
    t == "^=" || t == "$=" || t == "*=" || t == "=" || t == "~=" || t == "|=" || t == "!="
  }

  lemma AttribOperatorsAgree(t: string)
    ensures IsAttribOperator(t) <==> t in AttribOperators
  {
  }

  /** The single-colon pseudo-elements of CSS 2.1, compared case-sensitively. */
  predicate IsLegacyPseudoElement(t: string) {
    t == "first-line" || t == "first-letter" || t == "before" || t == "after"
  }

  lemma LegacyPseudoElementsAgree(t: string)
    ensures IsLegacyPseudoElement(t) <==> t in LegacyPseudoElements
  {
  }

  /** The loop test of `parse_simple_selector`: the end of the tokens, a
      whitespace, comma or combinator token, or `)` inside `:not()`. */
  predicate EndsCompound(peek: Option<Token>, insideNegation: bool) {
    peek.None? ||
    (var t := peek.value.text; t == " " || t == "," || IsCombinatorText(t) || (insideNegation && t == ")"))
  }

  /** The stream stands before a token that ends a compound selector, or at the
      end of the tokens with no exception pending. */
  predicate StopsAt(tokens: seq<Token>, c: Cursor, insideNegation: bool) {
    c.pos <= |tokens| &&
    if c.pos < |tokens| then EndsCompound(Some(tokens[c.pos]), insideNegation) else c.failure.None?
  }

  /** The stream stands before a `,`, or at the end of the tokens with no
      exception pending. */
  predicate EndsSelector(tokens: seq<Token>, c: Cursor) {
    c.pos <= |tokens| &&
    if c.pos < |tokens| then tokens[c.pos].text == "," else c.failure.None?
  }

  // ---------------------------------------------------------------------------
  // parse_simple_selector

  /** `parse_simple_selector(stream, inside_negation)`. */
  function SimpleSelectorAt(tokens: seq<Token>, c: Cursor, insideNegation: bool): (r: (Outcome<Compound>, Cursor))
    requires c.pos <= |tokens|
    ensures c.pos <= r.1.pos <= |tokens|
    ensures r.0.Ok? ==> c.pos < r.1.pos
    decreases |tokens| - c.pos, if insideNegation then 0 else 1, 5
  {
    var (skipped, c1) := SkipWhitespaceAt(tokens, c);
    if skipped.Fail? then (Err(skipped.error), c1)
    else
      var (peek, c2) := PeekAt(tokens, c1);
      if peek.Err? then (Err(peek.error), c2)
      else
        var (head, c3) := ElementAt(tokens, c2);
        if head.Err? then (Err(head.error), c3)
        else QualifiersAt(tokens, c3, head.value, None, insideNegation, c2.pos)
  }

  /** The type selector that starts a compound selector: `ns|name`, `name`,
      `*`, or an implicit `*` when the next token is neither `*` nor a symbol. */
  function ElementAt(tokens: seq<Token>, c: Cursor): (r: (Outcome<Tree>, Cursor))
    requires c.pos <= |tokens|
    ensures c.pos <= r.1.pos <= |tokens|
  {
    if c.pos < |tokens| && (tokens[c.pos].text == "*" || tokens[c.pos].kind == SymbolKind) then
      var (next, c1) := NextAt(tokens, c);
      var (peek, c2) := PeekAt(tokens, c1);
      if peek.Err? then (Err(peek.error), c2)
      else if peek.value.Some? && peek.value.value.text == "|" then
        var (_, c3) := NextAt(tokens, c2);
        var (element, c4) := NextSymbolOrStarAt(tokens, c3);
        if element.Err? then (Err(element.error), c4)
        else (Ok(Element(tokens[c.pos].text, element.value.text)), c4)
      else (Ok(Element("*", tokens[c.pos].text)), c2)
    else (Ok(Element("*", "*")), c)
  }

  /** The `while 1` loop of `parse_simple_selector`, which adds qualifiers to
      `result` until a token ends the compound selector, followed by the test
      that the compound selector consumed at least one token (`consumed` is
      the length of `used` before the type selector). */
  function QualifiersAt(tokens: seq<Token>, c: Cursor, result: Tree, pseudo: Option<string>, insideNegation: bool, consumed: nat): (r: (Outcome<Compound>, Cursor))
    requires consumed <= c.pos <= |tokens|
    ensures c.pos <= r.1.pos <= |tokens|
    ensures r.0.Ok? ==> consumed < r.1.pos
    decreases |tokens| - c.pos, if insideNegation then 0 else 1, 4
  {
    var (peek, c1) := PeekAt(tokens, c);
    if peek.Err? then (Err(peek.error), c1)
    else if EndsCompound(peek.value, insideNegation) then
      // The peek that formats the error message repeats this one.
      if consumed == c1.pos then (Err(SyntaxError(ExpectedSelector)), c1)
      else (Ok((result, pseudo)), c1)
    else if Truthy(pseudo) then (Err(SyntaxError(PseudoElementNotAtEnd)), c1)
    else
      var (qualified, c2) := QualifierAt(tokens, c1, result, pseudo, insideNegation);
      if qualified.Err? then (Err(qualified.error), c2)
      else QualifiersAt(tokens, c2, qualified.value.0, qualified.value.1, insideNegation, consumed)
  }

  /** One turn of that loop, at the token `#`, `.`, `[`, `::` or `:` (any
      other token is rejected before it is consumed). */
  function QualifierAt(tokens: seq<Token>, c: Cursor, result: Tree, pseudo: Option<string>, insideNegation: bool): (r: (Outcome<Compound>, Cursor))
    requires c.pos < |tokens|
    ensures c.pos <= r.1.pos <= |tokens|
    ensures r.0.Ok? ==> c.pos < r.1.pos
    decreases |tokens| - c.pos, if insideNegation then 0 else 1, 3
  {
    var text := tokens[c.pos].text;
    if text == "#" || text == "." || text == "::" then
      var (_, c1) := NextAt(tokens, c);
      SymbolQualifierAt(tokens, c1, text, result, pseudo)
    else if text == "[" then
      var (_, c1) := NextAt(tokens, c);
      AttribQualifierAt(tokens, c1, result, pseudo)
    else if text == ":" then
      var (_, c1) := NextAt(tokens, c);
      PseudoClassAt(tokens, c1, result, pseudo, insideNegation)
    else (Err(SyntaxError(ExpectedSelector)), c)
  }

  /** After a `#`, `.` or `::`: the symbol that names the id, the class or the
      pseudo-element. */
  function SymbolQualifierAt(tokens: seq<Token>, c: Cursor, marker: string, result: Tree, pseudo: Option<string>): (r: (Outcome<Compound>, Cursor))
    requires c.pos <= |tokens|
    ensures c.pos <= r.1.pos <= |tokens|
    ensures r.0.Ok? ==> c.pos < r.1.pos
  {
    var (name, c1) := NextSymbolAt(tokens, c);
    if name.Err? then (Err(name.error), c1)
    else if marker == "#" then (Ok((Hash(result, name.value.text), pseudo)), c1)
    else if marker == "." then (Ok((Class(result, name.value.text), pseudo)), c1)
    else (Ok((result, Some(name.value.text))), c1)
  }

  /** After a `:`: a legacy pseudo-element, a pseudo-class, `:not(...)` or a
      functional pseudo-class. */
  function PseudoClassAt(tokens: seq<Token>, c: Cursor, result: Tree, pseudo: Option<string>, insideNegation: bool): (r: (Outcome<Compound>, Cursor))
    requires c.pos <= |tokens|
    ensures c.pos <= r.1.pos <= |tokens|
    decreases |tokens| - c.pos, if insideNegation then 0 else 1, 2
  {
    var (ident, c1) := NextSymbolAt(tokens, c);
    if ident.Err? then (Err(ident.error), c1)
    else if IsLegacyPseudoElement(ident.value.text) then (Ok((result, Some(ident.value.text))), c1)
    else
      var (peek, c2) := PeekAt(tokens, c1);
      if peek.Err? then (Err(peek.error), c2)
      else if !(peek.value.Some? && peek.value.value.text == "(") then (Ok((Pseudo(result, ident.value.text), pseudo)), c2)
      else FunctionalPseudoAt(tokens, c2, result, ident.value.text, pseudo, insideNegation)
  }

  /** At the `(` after a pseudo-class name: `:not(...)` or a functional
      pseudo-class. */
  function FunctionalPseudoAt(tokens: seq<Token>, c: Cursor, result: Tree, name: string, pseudo: Option<string>, insideNegation: bool): (r: (Outcome<Compound>, Cursor))
    requires c.pos < |tokens|
    ensures c.pos <= r.1.pos <= |tokens|
    decreases |tokens| - c.pos, if insideNegation then 0 else 1, 1
  {
    var (_, c1) := NextAt(tokens, c);
    var (skipped, c2) := SkipWhitespaceAt(tokens, c1);
    if skipped.Fail? then (Err(skipped.error), c2)
    else if name == "not" then NegationAt(tokens, c2, result, pseudo, insideNegation)
    else FunctionAt(tokens, c2, result, name, pseudo)
  }

  /** The argument of `:not(` and its closing parenthesis. */
  function NegationAt(tokens: seq<Token>, c: Cursor, result: Tree, pseudo: Option<string>, insideNegation: bool): (r: (Outcome<Compound>, Cursor))
    requires c.pos <= |tokens|
    ensures c.pos <= r.1.pos <= |tokens|
    decreases |tokens| - c.pos, if insideNegation then 0 else 1, 0
  {
    if insideNegation then (Err(SyntaxError(NestedNot)), c)
    else
      var (argument, c1) := SimpleSelectorAt(tokens, c, true);
      if argument.Err? then (Err(argument.error), c1)
      else if Truthy(argument.value.1) then (Err(SyntaxError(PseudoElementInNot)), c1)
      else
        var (closed, c2) := CloseParenAt(tokens, c1);
        if closed.Fail? then (Err(closed.error), c2)
        else (Ok((Negation(result, argument.value.0), pseudo)), c2)
  }

  /** The argument of a functional pseudo-class, a single symbol or string
      token, and its closing parenthesis. */
  function FunctionAt(tokens: seq<Token>, c: Cursor, result: Tree, name: string, pseudo: Option<string>): (r: (Outcome<Compound>, Cursor))
    requires c.pos <= |tokens|
    ensures c.pos <= r.1.pos <= |tokens|
  {
    var (peek, c1) := PeekAt(tokens, c);
    if peek.Err? then (Err(peek.error), c1)
    else if !(peek.value.Some? && IsArgumentToken(peek.value.value)) then (Err(SyntaxError(ExpectedArgument)), c1)
    else
      var (_, c2) := NextAt(tokens, c1);
      var (closed, c3) := CloseParenAt(tokens, c2);
      if closed.Fail? then (Err(closed.error), c3)
      else (Ok((Function(result, name, peek.value.value), pseudo)), c3)
  }

  /** Optional whitespace, then a `)` token. */
  function CloseParenAt(tokens: seq<Token>, c: Cursor): (r: (Status<Error>, Cursor))
    requires c.pos <= |tokens|
    ensures c.pos <= r.1.pos <= |tokens|
  {
    var (skipped, c1) := SkipWhitespaceAt(tokens, c);
    if skipped.Fail? then (skipped, c1)
    else
      var (next, c2) := NextAt(tokens, c1);
      if next.Err? then (Fail(next.error), c2)
      else if next.value.None? || next.value.value.text != ")" then (Fail(SyntaxError(ExpectedCloseParen)), c2)
      else (Pass, c2)
  }

  // ---------------------------------------------------------------------------
  // parse_attrib

  /** After a `[`: the attribute selector and its closing `]`. */
  function AttribQualifierAt(tokens: seq<Token>, c: Cursor, result: Tree, pseudo: Option<string>): (r: (Outcome<Compound>, Cursor))
    requires c.pos <= |tokens|
    ensures c.pos <= r.1.pos <= |tokens|
  {
    var (attrib, c1) := AttribAt(tokens, c, result);
    if attrib.Err? then (Err(attrib.error), c1)
    else
      var (next, c2) := NextAt(tokens, c1);
      if next.Err? then (Err(next.error), c2)
      else if next.value.None? || next.value.value.text != "]" then (Err(SyntaxError(ExpectedCloseBracket)), c2)
      else (Ok((attrib.value, pseudo)), c2)
  }

  /** `parse_attrib(selector, stream)`, after the `[`. */
  function AttribAt(tokens: seq<Token>, c: Cursor, selector: Tree): (r: (Outcome<Tree>, Cursor))
    requires c.pos <= |tokens|
    ensures c.pos <= r.1.pos <= |tokens|
  {
    var (skipped, c1) := SkipWhitespaceAt(tokens, c);
    if skipped.Fail? then (Err(skipped.error), c1)
    else
      var (attrib, c2) := NextSymbolOrStarAt(tokens, c1);
      if attrib.Err? then (Err(attrib.error), c2)
      else
        var (peek, c3) := PeekAt(tokens, c2);
        var pipe := peek.Ok? && peek.value.Some? && peek.value.value.text == "|";
        if peek.Err? then (Err(peek.error), c3)
        else if attrib.value.text == "*" && !pipe then (Err(SyntaxError(ExpectedPipe)), c3)
        else if pipe then
          var (_, c4) := NextAt(tokens, c3);
          var (name, c5) := NextSymbolAt(tokens, c4);
          if name.Err? then (Err(name.error), c5)
          else AttribTestAt(tokens, c5, selector, attrib.value.text, name.value.text)
        else AttribTestAt(tokens, c3, selector, "*", attrib.value.text)
  }

  /** The rest of `parse_attrib`: `]` alone (an `exists` test), or an operator
      and a symbol or string value. */
  function AttribTestAt(tokens: seq<Token>, c: Cursor, selector: Tree, namespace: string, attrib: string): (r: (Outcome<Tree>, Cursor))
    requires c.pos <= |tokens|
    ensures c.pos <= r.1.pos <= |tokens|
  {
    var (skipped, c1) := SkipWhitespaceAt(tokens, c);
    if skipped.Fail? then (Err(skipped.error), c1)
    else
      var (peek, c2) := PeekAt(tokens, c1);
      if peek.Err? then (Err(peek.error), c2)
      else if peek.value.Some? && peek.value.value.text == "]" then (Ok(Attrib(selector, namespace, attrib, "exists", None)), c2)
      else
        // This `next()` cannot raise: the peek before it did not.
        var (next, c3) := NextAt(tokens, c2);
        var op := next.value;
        if !(op.Some? && IsAttribOperator(op.value.text)) then (Err(SyntaxError(OperatorExpected)), c3)
        else
          var (skipped2, c4) := SkipWhitespaceAt(tokens, c3);
          if skipped2.Fail? then (Err(skipped2.error), c4)
          else
            var (value, c5) := NextAt(tokens, c4);
            if value.Err? then (Err(value.error), c5)
            else if !(value.value.Some? && IsArgumentToken(value.value.value)) then (Err(SyntaxError(ExpectedStringOrSymbol)), c5)
            else
              var (skipped3, c6) := SkipWhitespaceAt(tokens, c5);
              if skipped3.Fail? then (Err(skipped3.error), c6)
              else (Ok(Attrib(selector, namespace, attrib, op.value.text, value.value)), c6)
  }

  // ---------------------------------------------------------------------------
  // parse_selector and parse_selector_group

  /** `parse_selector(stream)`. */
  function SelectorAt(tokens: seq<Token>, c: Cursor): (r: (Outcome<Compound>, Cursor))
    requires c.pos <= |tokens|
    ensures c.pos <= r.1.pos <= |tokens|
    ensures r.0.Ok? ==> c.pos < r.1.pos
  {
    var (first, c1) := SimpleSelectorAt(tokens, c, false);
    if first.Err? then (Err(first.error), c1)
    else CombinatorsAt(tokens, c1, first.value.0, first.value.1)
  }

  /** The `while 1` loop of `parse_selector`: a combinator (`+`, `>`, `~`, or
      the whitespace the last compound selector stopped at) and the next
      compound selector, until a `,` or the end of the tokens. */
  function CombinatorsAt(tokens: seq<Token>, c: Cursor, result: Tree, pseudo: Option<string>): (r: (Outcome<Compound>, Cursor))
    requires c.pos <= |tokens|
    ensures c.pos <= r.1.pos <= |tokens|
    decreases |tokens| - c.pos, 1
  {
    var (skipped, c1) := SkipWhitespaceAt(tokens, c);
    if skipped.Fail? then (Err(skipped.error), c1)
    else
      var (peek, c2) := PeekAt(tokens, c1);
      if peek.Err? then (Err(peek.error), c2)
      else if peek.value.None? || peek.value.value.text == "," then (Ok((result, pseudo)), c2)
      else if Truthy(pseudo) then (Err(SyntaxError(PseudoElementNotAtEnd)), c2)
      else NextCompoundAt(tokens, c2, result)
  }

  /** One turn of that loop: the combinator, the next compound selector, and
      the rest of the loop. */
  function NextCompoundAt(tokens: seq<Token>, c: Cursor, result: Tree): (r: (Outcome<Compound>, Cursor))
    requires c.pos < |tokens|
    ensures c.pos <= r.1.pos <= |tokens|
    decreases |tokens| - c.pos, 0
  {
    var (combinator, c3) := CombinatorAt(tokens, c);
    if combinator.Err? then (Err(combinator.error), c3)
    else
      var (next, c4) := SimpleSelectorAt(tokens, c3, false);
      if next.Err? then (Err(next.error), c4)
      else CombinatorsAt(tokens, c4, CombinedSelector(result, combinator.value, next.value.0), next.value.1)
  }

  /** A `+`, `>` or `~` token and the whitespace after it; any other token is
      left for the next compound selector and the combinator is `' '`. */
  function CombinatorAt(tokens: seq<Token>, c: Cursor): (r: (Outcome<string>, Cursor))
    requires c.pos < |tokens|
    ensures c.pos <= r.1.pos <= |tokens|
  {
    if IsCombinatorText(tokens[c.pos].text) then
      var (_, c1) := NextAt(tokens, c);
      var (skipped, c2) := SkipWhitespaceAt(tokens, c1);
      if skipped.Fail? then (Err(skipped.error), c2) else (Ok(tokens[c.pos].text), c2)
    else (Ok(" "), c)
  }

  /** `parse_selector_group(stream)`, drained into a list. */
  function GroupAt(tokens: seq<Token>, c: Cursor): (r: (Outcome<seq<Selector>>, Cursor))
    requires c.pos <= |tokens|
    ensures c.pos <= r.1.pos <= |tokens|
  {
    var (skipped, c1) := SkipWhitespaceAt(tokens, c);
    if skipped.Fail? then (Err(skipped.error), c1)
    else GroupLoopAt(tokens, c1, [])
  }

  /** The `while 1` loop of `parse_selector_group`: a selector, then more
      after each `,`. */
  function GroupLoopAt(tokens: seq<Token>, c: Cursor, selectors: seq<Selector>): (r: (Outcome<seq<Selector>>, Cursor))
    requires c.pos <= |tokens|
    ensures c.pos <= r.1.pos <= |tokens|
    decreases |tokens| - c.pos
  {
    var (selector, c1) := SelectorAt(tokens, c);
    if selector.Err? then (Err(selector.error), c1)
    else
      var parsed := selectors + [Selector(selector.value.0, selector.value.1)];
      var (peek, c2) := PeekAt(tokens, c1);
      if peek.Err? then (Err(peek.error), c2)
      else if peek.value.Some? && peek.value.value.text == "," then
        var (_, c3) := NextAt(tokens, c2);
        var (skipped, c4) := SkipWhitespaceAt(tokens, c3);
        if skipped.Fail? then (Err(skipped.error), c4)
        else GroupLoopAt(tokens, c4, parsed)
      else (Ok(parsed), c2)
  }

  // ---------------------------------------------------------------------------
  // parse

  /** Index just past the run of word characters (`\w*`) starting at `i`. */
  function WordEnd(s: string, i: nat): (j: nat)
    requires i <= |s|
    ensures i <= j <= |s|
    ensures forall k | i <= k < j :: IsWordChar(s[k])
    ensures j == |s| || !IsWordChar(s[j])
    decreases |s| - i
  {
    if i < |s| && IsWordChar(s[i]) then WordEnd(s, i + 1) else i
  }

  /** `^\s*(\w+)$` (where `$` also matches before a final newline): the word. */
  function ElementFastPath(css: string): (r: Option<string>)
    ensures r.Some? ==> r.value != [] && forall k | 0 <= k < |r.value| :: IsWordChar(r.value[k])
  {
    var i := SkipSpaces(css, 0);
    var j := WordEnd(css, i);
    if i < j && (j == |css| || (j == |css| - 1 && css[j] == '\n')) then Some(css[i..j]) else None
  }

  /** `^\s*(\w*)#(\w+)\s*$` with `separator` `#`, and the same with `.`: the
      (possibly empty) tag name and the identifier. */
  function QualifiedFastPath(css: string, separator: char): (r: Option<(string, string)>)
    ensures r.Some? ==> r.value.1 != []
  {
    var i := SkipSpaces(css, 0);
    var j := WordEnd(css, i);
    if j < |css| && css[j] == separator then
      var k := WordEnd(css, j + 1);
      if j + 1 < k && SkipSpaces(css, k) == |css| then Some((css[i..j], css[j + 1..k])) else None
    else None
  }

  /** `parse(css)`: three regular-expression fast paths, then the tokenizer and
      the parser. When the parser raises a `SelectorSyntaxError`, the handler
      peeks at the stream to format its message; an exception that peek
      raises is the one `parse` raises. */
  function Parsed(css: string, decode: string -> Option<string>): Outcome<seq<Selector>>
  {
    var word := ElementFastPath(css);
    var id := QualifiedFastPath(css, '#');
    var className := QualifiedFastPath(css, '.');
    if word.Some? then Ok([Selector(Element("*", word.value), None)])
    else if id.Some? then Ok([Selector(Hash(Element("*", OrStar(id.value.0)), id.value.1), None)])
    else if className.Some? then Ok([Selector(Class(Element("*", OrStar(className.value.0)), className.value.1), None)])
    else
      var (tokens, failure) := Tokenizer.Tokenized(css, decode);
      var (result, after) := GroupAt(tokens, Cursor(0, failure));
      if result.Err? && result.error.SyntaxError? then
        var (peek, _) := PeekAt(tokens, after);
        if peek.Err? then Err(peek.error) else result
      else result
  }

  /** Python's `name or '*'`. */
  function OrStar(name: string): string { if name == "" then "*" else name }

  // ---------------------------------------------------------------------------
  // What a successful parse guarantees

  /** A compound selector the parser accepts is a type selector with
      qualifiers whose attribute tests and function arguments are well formed;
      it holds a `:not()` only outside a negation, and the stream stands at a
      token that ends a compound selector. Together with the lemmas below this
      is what makes nested `:not()` and malformed attribute tests errors. */
  lemma {:induction false} SimpleSelectorIsCompound(tokens: seq<Token>, c: Cursor, insideNegation: bool)
    requires c.pos <= |tokens|
    ensures var r := SimpleSelectorAt(tokens, c, insideNegation);
            r.0.Ok? ==> r.1.failure == c.failure && IsCompound(r.0.value.0, !insideNegation) && StopsAt(tokens, r.1, insideNegation)
    decreases |tokens| - c.pos, if insideNegation then 0 else 1, 5
  {
    var (skipped, c1) := SkipWhitespaceAt(tokens, c);
    if skipped.Pass? {
      var (peek, c2) := PeekAt(tokens, c1);
      if peek.Ok? {
        var (head, c3) := ElementAt(tokens, c2);
        if head.Ok? {
          assert head.value.Element?;
          QualifiersIsCompound(tokens, c3, head.value, None, insideNegation, c2.pos);
        }
      }
    }
  }

  lemma {:induction false} QualifiersIsCompound(tokens: seq<Token>, c: Cursor, result: Tree, pseudo: Option<string>, insideNegation: bool, consumed: nat)
    requires consumed <= c.pos <= |tokens|
    requires IsCompound(result, !insideNegation)
    ensures var r := QualifiersAt(tokens, c, result, pseudo, insideNegation, consumed);
            r.0.Ok? ==> r.1.failure == c.failure && IsCompound(r.0.value.0, !insideNegation) && StopsAt(tokens, r.1, insideNegation)
    decreases |tokens| - c.pos, if insideNegation then 0 else 1, 4
  {
    var (peek, c1) := PeekAt(tokens, c);
    if peek.Ok? && !EndsCompound(peek.value, insideNegation) && !Truthy(pseudo) {
      var (qualified, c2) := QualifierAt(tokens, c1, result, pseudo, insideNegation);
      QualifierIsCompound(tokens, c1, result, pseudo, insideNegation);
      if qualified.Ok? {
        QualifiersIsCompound(tokens, c2, qualified.value.0, qualified.value.1, insideNegation, consumed);
      }
    }
  }

  lemma {:induction false} QualifierIsCompound(tokens: seq<Token>, c: Cursor, result: Tree, pseudo: Option<string>, insideNegation: bool)
    requires c.pos < |tokens|
    requires IsCompound(result, !insideNegation)
    ensures var r := QualifierAt(tokens, c, result, pseudo, insideNegation);
            r.0.Ok? ==> r.1.failure == c.failure && IsCompound(r.0.value.0, !insideNegation)
    decreases |tokens| - c.pos, if insideNegation then 0 else 1, 3
  {
    var text := tokens[c.pos].text;
    var c1 := NextAt(tokens, c).1;
    if text == "#" || text == "." || text == "::" {
      SymbolQualifierIsCompound(tokens, c1, text, result, pseudo, insideNegation);
    } else if text == "[" {
      AttribQualifierIsCompound(tokens, c1, result, pseudo, insideNegation);
    } else if text == ":" {
      PseudoClassIsCompound(tokens, c1, result, pseudo, insideNegation);
    }
  }

  lemma SymbolQualifierIsCompound(tokens: seq<Token>, c: Cursor, marker: string, result: Tree, pseudo: Option<string>, insideNegation: bool)
    requires c.pos <= |tokens|
    requires IsCompound(result, !insideNegation)
    ensures var r := SymbolQualifierAt(tokens, c, marker, result, pseudo);
            r.0.Ok? ==> r.1.failure == c.failure && IsCompound(r.0.value.0, !insideNegation)
  {
  }

  lemma AttribQualifierIsCompound(tokens: seq<Token>, c: Cursor, result: Tree, pseudo: Option<string>, insideNegation: bool)
    requires c.pos <= |tokens|
    requires IsCompound(result, !insideNegation)
    ensures var r := AttribQualifierAt(tokens, c, result, pseudo);
            r.0.Ok? ==> r.1.failure == c.failure && IsCompound(r.0.value.0, !insideNegation)
  {
    AttribIsValid(tokens, c, result);
  }

  lemma {:induction false} PseudoClassIsCompound(tokens: seq<Token>, c: Cursor, result: Tree, pseudo: Option<string>, insideNegation: bool)
    requires c.pos <= |tokens|
    requires IsCompound(result, !insideNegation)
    ensures var r := PseudoClassAt(tokens, c, result, pseudo, insideNegation);
            r.0.Ok? ==> r.1.failure == c.failure && IsCompound(r.0.value.0, !insideNegation)
    decreases |tokens| - c.pos, if insideNegation then 0 else 1, 2
  {
    var (ident, c1) := NextSymbolAt(tokens, c);
    if ident.Ok? && !IsLegacyPseudoElement(ident.value.text) {
      var (peek, c2) := PeekAt(tokens, c1);
      if peek.Ok? && peek.value.Some? && peek.value.value.text == "(" {
        FunctionalPseudoIsCompound(tokens, c2, result, ident.value.text, pseudo, insideNegation);
      }
    }
  }

  lemma {:induction false} FunctionalPseudoIsCompound(tokens: seq<Token>, c: Cursor, result: Tree, name: string, pseudo: Option<string>, insideNegation: bool)
    requires c.pos < |tokens|
    requires IsCompound(result, !insideNegation)
    ensures var r := FunctionalPseudoAt(tokens, c, result, name, pseudo, insideNegation);
            r.0.Ok? ==> r.1.failure == c.failure && IsCompound(r.0.value.0, !insideNegation)
    decreases |tokens| - c.pos, if insideNegation then 0 else 1, 1
  {
    var c1 := NextAt(tokens, c).1;
    var (skipped, c2) := SkipWhitespaceAt(tokens, c1);
    if skipped.Pass? {
      if name == "not" {
        NegationIsCompound(tokens, c2, result, pseudo, insideNegation);
      } else {
        FunctionHasArgument(tokens, c2, result, name, pseudo);
      }
    }
  }

  lemma {:induction false} NegationIsCompound(tokens: seq<Token>, c: Cursor, result: Tree, pseudo: Option<string>, insideNegation: bool)
    requires c.pos <= |tokens|
    requires IsCompound(result, !insideNegation)
    ensures var r := NegationAt(tokens, c, result, pseudo, insideNegation);
            r.0.Ok? ==> r.1.failure == c.failure && !insideNegation && IsCompound(r.0.value.0, true)
    decreases |tokens| - c.pos, if insideNegation then 0 else 1, 0
  {
    if !insideNegation {
      SimpleSelectorIsCompound(tokens, c, true);
    }
  }

  /** A functional pseudo-class holds the single symbol or string token that
      follows its `(` and optional whitespace. */
  lemma FunctionHasArgument(tokens: seq<Token>, c: Cursor, result: Tree, name: string, pseudo: Option<string>)
    requires c.pos <= |tokens|
    ensures var r := FunctionAt(tokens, c, result, name, pseudo);
            r.0.Ok? ==> r.1.failure == c.failure && c.pos < |tokens| && IsArgumentToken(tokens[c.pos]) &&
                        r.0.value == (Function(result, name, tokens[c.pos]), pseudo)
  {
  }

  /** An attribute selector the parser accepts qualifies `selector` and tests
      either existence (no value) or one of the seven operators against a
      symbol or string. */
  lemma AttribIsValid(tokens: seq<Token>, c: Cursor, selector: Tree)
    requires c.pos <= |tokens|
    ensures var r := AttribAt(tokens, c, selector);
            r.0.Ok? ==> r.1.failure == c.failure && r.0.value.Attrib? && r.0.value.selector == selector &&
                        ValidAttribTest(r.0.value.operator, r.0.value.value)
  {
    var (skipped, c1) := SkipWhitespaceAt(tokens, c);
    if skipped.Pass? {
      var (attrib, c2) := NextSymbolOrStarAt(tokens, c1);
      if attrib.Ok? {
        var (peek, c3) := PeekAt(tokens, c2);
        if peek.Ok? {
          if peek.value.Some? && peek.value.value.text == "|" {
            var c4 := NextAt(tokens, c3).1;
            var (name, c5) := NextSymbolAt(tokens, c4);
            if name.Ok? {
              AttribTestIsValid(tokens, c5, selector, attrib.value.text, name.value.text);
            }
          } else {
            AttribTestIsValid(tokens, c3, selector, "*", attrib.value.text);
          }
        }
      }
    }
  }

  lemma AttribTestIsValid(tokens: seq<Token>, c: Cursor, selector: Tree, namespace: string, attrib: string)
    requires c.pos <= |tokens|
    ensures var r := AttribTestAt(tokens, c, selector, namespace, attrib);
            r.0.Ok? ==> r.1.failure == c.failure && r.0.value == Attrib(selector, namespace, attrib, r.0.value.operator, r.0.value.value) &&
                        ValidAttribTest(r.0.value.operator, r.0.value.value)
  {
    var r := AttribTestAt(tokens, c, selector, namespace, attrib);
    if r.0.Ok? && r.0.value.Attrib? {
      AttribOperatorsAgree(r.0.value.operator);
    }
  }

  /** A selector the parser accepts is a chain of compound selectors joined by
      the four combinators, and the stream stands at a `,` or at the end. */
  lemma SelectorIsChain(tokens: seq<Token>, c: Cursor)
    requires c.pos <= |tokens|
    ensures var r := SelectorAt(tokens, c);
            r.0.Ok? ==> r.1.failure == c.failure && IsChain(r.0.value.0) && EndsSelector(tokens, r.1)
  {
    var (first, c1) := SimpleSelectorAt(tokens, c, false);
    SimpleSelectorIsCompound(tokens, c, false);
    if first.Ok? {
      CombinatorsIsChain(tokens, c1, first.value.0, first.value.1);
    }
  }

  lemma {:induction false} CombinatorsIsChain(tokens: seq<Token>, c: Cursor, result: Tree, pseudo: Option<string>)
    requires c.pos <= |tokens|
    requires IsChain(result)
    ensures var r := CombinatorsAt(tokens, c, result, pseudo);
            r.0.Ok? ==> r.1.failure == c.failure && IsChain(r.0.value.0) && EndsSelector(tokens, r.1)
    decreases |tokens| - c.pos, 1
  {
    var (skipped, c1) := SkipWhitespaceAt(tokens, c);
    if skipped.Pass? {
      var (peek, c2) := PeekAt(tokens, c1);
      if peek.Ok? && peek.value.Some? && peek.value.value.text != "," && !Truthy(pseudo) {
        NextCompoundIsChain(tokens, c2, result);
      }
    }
  }

  lemma {:induction false} NextCompoundIsChain(tokens: seq<Token>, c: Cursor, result: Tree)
    requires c.pos < |tokens|
    requires IsChain(result)
    ensures var r := NextCompoundAt(tokens, c, result);
            r.0.Ok? ==> r.1.failure == c.failure && IsChain(r.0.value.0) && EndsSelector(tokens, r.1)
    decreases |tokens| - c.pos, 0
  {
    var (combinator, c3) := CombinatorAt(tokens, c);
    if combinator.Ok? {
      var (next, c4) := SimpleSelectorAt(tokens, c3, false);
      SimpleSelectorIsCompound(tokens, c3, false);
      if next.Ok? {
        CombinatorIsKnown(tokens, c);
        CombinatorsIsChain(tokens, c4, CombinedSelector(result, combinator.value, next.value.0), next.value.1);
      }
    }
  }

  /** The combinator between two compound selectors is `' '`, `+`, `>` or `~`. */
  lemma CombinatorIsKnown(tokens: seq<Token>, c: Cursor)
    requires c.pos < |tokens|
    ensures var r := CombinatorAt(tokens, c);
            r.0.Ok? ==> r.1.failure == c.failure && r.0.value in Combinators
  {
    var r := CombinatorAt(tokens, c);
    if r.0.Ok? {
      CombinatorsAgree(r.0.value);
    }
  }

  /** A group the parser accepts holds at least one selector, every one a
      chain, and it consumed every token with the tokenizer raising nothing. */
  lemma GroupIsComplete(tokens: seq<Token>, c: Cursor)
    requires c.pos <= |tokens|
    ensures var r := GroupAt(tokens, c);
            r.0.Ok? ==> r.1.failure == c.failure && |r.0.value| >= 1 && (forall i | 0 <= i < |r.0.value| :: IsChain(r.0.value[i].tree)) &&
                        r.1.pos == |tokens| && r.1.failure.None?
  {
    var (skipped, c1) := SkipWhitespaceAt(tokens, c);
    if skipped.Pass? {
      GroupLoopIsComplete(tokens, c1, []);
    }
  }

  lemma {:induction false} GroupLoopIsComplete(tokens: seq<Token>, c: Cursor, selectors: seq<Selector>)
    requires c.pos <= |tokens|
    requires forall i | 0 <= i < |selectors| :: IsChain(selectors[i].tree)
    ensures var r := GroupLoopAt(tokens, c, selectors);
            r.0.Ok? ==> r.1.failure == c.failure && |r.0.value| > |selectors| && r.0.value[..|selectors|] == selectors &&
                        (forall i | 0 <= i < |r.0.value| :: IsChain(r.0.value[i].tree)) &&
                        r.1.pos == |tokens| && r.1.failure.None?
    decreases |tokens| - c.pos
  {
    var (selector, c1) := SelectorAt(tokens, c);
    SelectorIsChain(tokens, c);
    if selector.Ok? {
      var parsed := selectors + [Selector(selector.value.0, selector.value.1)];
      var (peek, c2) := PeekAt(tokens, c1);
      if peek.Ok? && peek.value.Some? && peek.value.value.text == "," {
        var c3 := NextAt(tokens, c2).1;
        var (skipped, c4) := SkipWhitespaceAt(tokens, c3);
        if skipped.Pass? {
          GroupLoopIsComplete(tokens, c4, parsed);
          var r := GroupLoopAt(tokens, c4, parsed);
          if r.0.Ok? {
            assert r.0.value[..|selectors|] == r.0.value[..|parsed|][..|selectors|];
          }
        }
      }
    }
  }

  /** What `parse` returns is a non-empty list of chains. */
  lemma ParsedIsChains(css: string, decode: string -> Option<string>)
    ensures var r := Parsed(css, decode);
            r.Ok? ==> |r.value| >= 1 && forall i | 0 <= i < |r.value| :: IsChain(r.value[i].tree)
  {
    var id := QualifiedFastPath(css, '#');
    var className := QualifiedFastPath(css, '.');
    if ElementFastPath(css).None? && id.None? && className.None? {
      var (tokens, failure) := Tokenizer.Tokenized(css, decode);
      GroupIsComplete(tokens, Cursor(0, failure));
    } else if id.Some? {
      assert IsCompound(Hash(Element("*", OrStar(id.value.0)), id.value.1), true);
    } else if className.Some? {
      assert IsCompound(Class(Element("*", OrStar(className.value.0)), className.value.1), true);
    }
  }

  /** Off the fast paths, a successful `parse` consumed every token, so the
      tokenizer raised nothing: the token list could be built up front. */
  lemma ParsedTokenizesCompletely(css: string, decode: string -> Option<string>)
    requires ElementFastPath(css).None? && QualifiedFastPath(css, '#').None? && QualifiedFastPath(css, '.').None?
    ensures Parsed(css, decode).Ok? ==> Tokenizer.Tokenized(css, decode).1.None?
  {
    var (tokens, failure) := Tokenizer.Tokenized(css, decode);
    GroupIsComplete(tokens, Cursor(0, failure));
    var (result, after) := GroupAt(tokens, Cursor(0, failure));
    if result.Ok? {
    }
  }

  // ---------------------------------------------------------------------------
  // What the parser rejects

  /** The tokens a compound selector can start with: a type selector or one of
      the qualifier markers. */
  predicate StartsCompound(t: Token) {
    t.kind == SymbolKind || t.text == "*" || t.text == "#" || t.text == "." || t.text == "[" ||
    t.text == "::" || t.text == ":"
  }

  /** A compound selector that would consume no token (after optional
      whitespace the tokens end, or stand at a token that can start none) is
      "Expected selector". */
  lemma CompoundNeedsAToken(tokens: seq<Token>, c: Cursor, insideNegation: bool)
    requires c.pos <= |tokens|
    ensures var k := SkipWhitespaceAt(tokens, c).1.pos;
            (k < |tokens| && !StartsCompound(tokens[k])) || (k == |tokens| && c.failure.None?) ==>
            SimpleSelectorAt(tokens, c, insideNegation).0 == Err(SyntaxError(ExpectedSelector))
  {
    var c1 := SkipWhitespaceAt(tokens, c).1;
    var k := c1.pos;
    if (k < |tokens| && !StartsCompound(tokens[k])) || (k == |tokens| && c.failure.None?) {
      var c2 := PeekAt(tokens, c1).1;
      var none := Element("*", "*");
      assert ElementAt(tokens, c2) == (Ok(none), c2);
      if k < |tokens| && !EndsCompound(Some(tokens[k]), insideNegation) {
        assert QualifierAt(tokens, c2, none, None, insideNegation).0 == Err(SyntaxError(ExpectedSelector));
      }
      assert QualifiersAt(tokens, c2, none, None, insideNegation, c2.pos).0 == Err(SyntaxError(ExpectedSelector));
    }
  }

  /** Nothing may follow a pseudo-element inside its compound selector. */
  lemma QualifierAfterPseudoElement(tokens: seq<Token>, c: Cursor, result: Tree, pseudo: Option<string>, insideNegation: bool, consumed: nat)
    requires consumed <= c.pos < |tokens|
    requires Truthy(pseudo) && !EndsCompound(Some(tokens[c.pos]), insideNegation)
    ensures QualifiersAt(tokens, c, result, pseudo, insideNegation, consumed).0 == Err(SyntaxError(PseudoElementNotAtEnd))
  {
  }

  /** Nor may a combinator: after a pseudo-element the selector must end, at
      a `,` or the end of the tokens. */
  lemma CombinatorAfterPseudoElement(tokens: seq<Token>, c: Cursor, result: Tree, pseudo: Option<string>)
    requires c.pos <= |tokens|
    requires Truthy(pseudo)
    ensures var k := SkipWhitespaceAt(tokens, c).1.pos;
            k < |tokens| && tokens[k].text != "," ==>
            CombinatorsAt(tokens, c, result, pseudo).0 == Err(SyntaxError(PseudoElementNotAtEnd))
  {
  }

  /** `:not(` inside `:not()` is rejected, wherever it stands in the compound
      selector. */
  lemma NestedNegationRejected(tokens: seq<Token>, c: Cursor, result: Tree, pseudo: Option<string>, consumed: nat)
    requires consumed <= c.pos && c.pos + 3 < |tokens|
    requires !Truthy(pseudo)
    requires tokens[c.pos].text == ":"
    requires tokens[c.pos + 1].kind == SymbolKind && tokens[c.pos + 1].text == "not"
    requires tokens[c.pos + 2].text == "("
    ensures QualifiersAt(tokens, c, result, pseudo, true, consumed).0 == Err(SyntaxError(NestedNot))
  {
    var c1 := Cursor(c.pos + 1, c.failure);
    var c2 := Cursor(c.pos + 2, c.failure);
    var c3 := Cursor(c.pos + 3, c.failure);
    assert SkipWhitespaceAt(tokens, c3).0 == Pass;
    assert FunctionalPseudoAt(tokens, c2, result, "not", pseudo, true).0 == Err(SyntaxError(NestedNot));
    assert PseudoClassAt(tokens, c1, result, pseudo, true) == FunctionalPseudoAt(tokens, c2, result, "not", pseudo, true);
    assert QualifierAt(tokens, c, result, pseudo, true) == PseudoClassAt(tokens, c1, result, pseudo, true);
    assert !EndsCompound(Some(tokens[c.pos]), true);
  }

  /** At `pos`, a pseudo-element closes the argument of `:not(`: `::name`, or a
      CSS 2.1 pseudo-element after a single `:`, followed by `)`. */
  predicate PseudoElementBeforeParen(tokens: seq<Token>, pos: nat) {
    pos + 3 <= |tokens| && tokens[pos + 1].kind == SymbolKind && tokens[pos + 2].text == ")" &&
    ((tokens[pos].text == "::" && tokens[pos + 1].text != "") ||
     (tokens[pos].text == ":" && IsLegacyPseudoElement(tokens[pos + 1].text)))
  }

  /** Inside a negation, a qualifier loop with no pseudo-element yet that meets
      such a pseudo-element ends with it, just before the `)`. */
  lemma PseudoElementEndsArgument(tokens: seq<Token>, c: Cursor, result: Tree, consumed: nat)
    requires consumed <= c.pos && PseudoElementBeforeParen(tokens, c.pos)
    ensures QualifiersAt(tokens, c, result, None, true, consumed) ==
            (Ok((result, Some(tokens[c.pos + 1].text))), Cursor(c.pos + 2, c.failure))
  {
    var name := Some(tokens[c.pos + 1].text);
    var c2 := Cursor(c.pos + 2, c.failure);
    assert !EndsCompound(Some(tokens[c.pos]), true);
    assert QualifierAt(tokens, c, result, None, true) == (Ok((result, name)), c2);
    assert QualifiersAt(tokens, c2, result, name, true, consumed) == (Ok((result, name)), c2);
  }

  /** A pseudo-element inside `:not()` is rejected, whatever type selector and
      qualifiers come before it: the premise says that the argument's qualifier
      loop reaches `c1` holding `argument` and no pseudo-element yet. */
  lemma PseudoElementInNegationRejected(tokens: seq<Token>, c: Cursor, result: Tree, pseudo: Option<string>,
                                        c1: Cursor, argument: Tree, consumed: nat)
    requires c.pos <= |tokens| && consumed <= c1.pos && PseudoElementBeforeParen(tokens, c1.pos)
    requires SimpleSelectorAt(tokens, c, true) == QualifiersAt(tokens, c1, argument, None, true, consumed)
    ensures NegationAt(tokens, c, result, pseudo, false).0 == Err(SyntaxError(PseudoElementInNot))
  {
    PseudoElementEndsArgument(tokens, c1, argument, consumed);
    assert Truthy(Some(tokens[c1.pos + 1].text));
  }

  /** `:not(::name)`: the pseudo-element right after the parenthesis. */
  lemma LonePseudoElementInNegation(tokens: seq<Token>, c: Cursor, result: Tree, pseudo: Option<string>)
    requires PseudoElementBeforeParen(tokens, c.pos) && tokens[c.pos].kind != SymbolKind
    ensures NegationAt(tokens, c, result, pseudo, false).0 == Err(SyntaxError(PseudoElementInNot))
  {
    assert ElementAt(tokens, c) == (Ok(Element("*", "*")), c);
    PseudoElementInNegationRejected(tokens, c, result, pseudo, c, Element("*", "*"), c.pos);
  }

  /** `:not(a::name)`: a type selector, then the pseudo-element. */
  lemma TypedPseudoElementInNegation(tokens: seq<Token>, c: Cursor, result: Tree, pseudo: Option<string>)
    requires c.pos < |tokens| && tokens[c.pos].kind == SymbolKind && tokens[c.pos].text != " "
    requires PseudoElementBeforeParen(tokens, c.pos + 1)
    ensures NegationAt(tokens, c, result, pseudo, false).0 == Err(SyntaxError(PseudoElementInNot))
  {
    var c1 := Cursor(c.pos + 1, c.failure);
    var argument := Element("*", tokens[c.pos].text);
    assert ElementAt(tokens, c) == (Ok(argument), c1);
    PseudoElementInNegationRejected(tokens, c, result, pseudo, c1, argument, c.pos);
  }

  /** `:not(.name::name)`: a class, then the pseudo-element. */
  lemma ClassPseudoElementInNegation(tokens: seq<Token>, c: Cursor, result: Tree, pseudo: Option<string>)
    requires c.pos + 2 <= |tokens| && tokens[c.pos].kind != SymbolKind && tokens[c.pos].text == "."
    requires tokens[c.pos + 1].kind == SymbolKind
    requires PseudoElementBeforeParen(tokens, c.pos + 2)
    ensures NegationAt(tokens, c, result, pseudo, false).0 == Err(SyntaxError(PseudoElementInNot))
  {
    var c2 := Cursor(c.pos + 2, c.failure);
    var argument := Class(Element("*", "*"), tokens[c.pos + 1].text);
    assert ElementAt(tokens, c) == (Ok(Element("*", "*")), c);
    assert QualifierAt(tokens, c, Element("*", "*"), None, true) == (Ok((argument, None)), c2);
    assert SimpleSelectorAt(tokens, c, true) == QualifiersAt(tokens, c2, argument, None, true, c.pos);
    PseudoElementInNegationRejected(tokens, c, result, pseudo, c2, argument, c.pos);
  }

  /** `[*]` and `[*=x]`: a `*` attribute name must be followed by `|`. */
  lemma StarAttributeNeedsPipe(tokens: seq<Token>, c: Cursor, selector: Tree)
    requires c.pos + 1 < |tokens|
    requires tokens[c.pos].text == "*" && tokens[c.pos + 1].text != "|"
    ensures AttribAt(tokens, c, selector).0 == Err(SyntaxError(ExpectedPipe))
  {
  }

  /** After the attribute name and optional whitespace comes `]` or one of the
      seven operators. */
  lemma AttributeOperatorRequired(tokens: seq<Token>, c: Cursor, selector: Tree, namespace: string, attrib: string)
    requires c.pos <= |tokens|
    ensures var c1 := SkipWhitespaceAt(tokens, c).1;
            (c1.pos < |tokens| && tokens[c1.pos].text != "]" && !IsAttribOperator(tokens[c1.pos].text)) ||
            (c1.pos == |tokens| && c.failure.None?) ==>
            AttribTestAt(tokens, c, selector, namespace, attrib).0 == Err(SyntaxError(OperatorExpected))
  {
  }

  /** After an operator and optional whitespace comes a symbol or a string. */
  lemma AttributeValueRequired(tokens: seq<Token>, c: Cursor, selector: Tree, namespace: string, attrib: string)
    requires c.pos < |tokens| && IsAttribOperator(tokens[c.pos].text)
    ensures var c1 := SkipWhitespaceAt(tokens, Cursor(c.pos + 1, c.failure)).1;
            (c1.pos < |tokens| && !IsArgumentToken(tokens[c1.pos])) || (c1.pos == |tokens| && c.failure.None?) ==>
            AttribTestAt(tokens, c, selector, namespace, attrib).0 == Err(SyntaxError(ExpectedStringOrSymbol))
  {
  }

  /** An attribute selector is closed by `]` and nothing else. */
  lemma AttributeNeedsCloseBracket(tokens: seq<Token>, c: Cursor, result: Tree, pseudo: Option<string>)
    requires c.pos <= |tokens|
    ensures var (attrib, c1) := AttribAt(tokens, c, result);
            attrib.Ok? && ((c1.pos < |tokens| && tokens[c1.pos].text != "]") || (c1.pos == |tokens| && c1.failure.None?)) ==>
            AttribQualifierAt(tokens, c, result, pseudo).0 == Err(SyntaxError(ExpectedCloseBracket))
  {
  }

  /** The argument of a functional pseudo-class is a single symbol or string. */
  lemma FunctionArgumentRequired(tokens: seq<Token>, c: Cursor, result: Tree, name: string, pseudo: Option<string>)
    requires c.pos <= |tokens|
    ensures (c.pos < |tokens| && !IsArgumentToken(tokens[c.pos])) || (c.pos == |tokens| && c.failure.None?) ==>
            FunctionAt(tokens, c, result, name, pseudo).0 == Err(SyntaxError(ExpectedArgument))
  {
  }

  /** A functional pseudo-class or negation is closed by `)` after optional
      whitespace. */
  lemma FunctionNeedsCloseParen(tokens: seq<Token>, c: Cursor)
    requires c.pos <= |tokens|
    ensures var k := SkipWhitespaceAt(tokens, c).1.pos;
            (k < |tokens| && tokens[k].text != ")") || (k == |tokens| && c.failure.None?) ==>
            CloseParenAt(tokens, c).0 == Fail(SyntaxError(ExpectedCloseParen))
  {
  }

  // ---------------------------------------------------------------------------
  // The fast paths of parse

  predicate AllSpaces(s: string) { forall k | 0 <= k < |s| :: IsSpace(s[k]) }

  predicate AllWordChars(s: string) { forall k | 0 <= k < |s| :: IsWordChar(s[k]) }

  lemma {:induction false} SkipSpacesStops(s: string, i: nat, j: nat)
    requires i <= j <= |s| && forall k | i <= k < j :: IsSpace(s[k])
    requires j == |s| || !IsSpace(s[j])
    ensures SkipSpaces(s, i) == j
    decreases j - i
  {
    if i < j {
      SkipSpacesStops(s, i + 1, j);
    }
  }

  lemma {:induction false} WordEndStops(s: string, i: nat, j: nat)
    requires i <= j <= |s| && forall k | i <= k < j :: IsWordChar(s[k])
    requires j == |s| || !IsWordChar(s[j])
    ensures WordEnd(s, i) == j
    decreases j - i
  {
    if i < j {
      WordEndStops(s, i + 1, j);
    }
  }

  /** A single word, after optional whitespace, is the type selector of that
      name, without tokenizing. */
  lemma WordFastPath(spaces: string, word: string, decode: string -> Option<string>)
    requires AllSpaces(spaces)
    requires word != [] && AllWordChars(word)
    ensures Parsed(spaces + word, decode) == Ok([Selector(Element("*", word), None)])
  {
    var css := spaces + word;
    SkipSpacesStops(css, 0, |spaces|);
    WordEndStops(css, |spaces|, |css|);
    assert css[|spaces|..|css|] == word;
  }

  /** `tag#id` and `tag.class`, with optional surrounding whitespace and an
      optional tag, are an id or class selector on that tag (or on `*`),
      without tokenizing. */
  lemma QualifiedFastPaths(spaces: string, tag: string, separator: char, name: string, trailing: string, decode: string -> Option<string>)
    requires AllSpaces(spaces) && AllWordChars(tag) && AllSpaces(trailing)
    requires name != [] && AllWordChars(name)
    requires separator == '#' || separator == '.'
    ensures var css := spaces + tag + [separator] + name + trailing;
            var element := Element("*", OrStar(tag));
            Parsed(css, decode) == Ok([Selector(if separator == '#' then Hash(element, name) else Class(element, name), None)])
  {
    QualifiedFastPathMatches(spaces, tag, separator, name, trailing);
  }

  lemma QualifiedFastPathMatches(spaces: string, tag: string, separator: char, name: string, trailing: string)
    requires AllSpaces(spaces) && AllWordChars(tag) && AllSpaces(trailing)
    requires name != [] && AllWordChars(name)
    requires separator == '#' || separator == '.'
    ensures var css := spaces + tag + [separator] + name + trailing;
            ElementFastPath(css).None? && QualifiedFastPath(css, separator) == Some((tag, name)) &&
            (separator == '.' ==> QualifiedFastPath(css, '#').None?)
  {
    QualifiedPositions(spaces, tag, separator, name, trailing);
  }

  /** Where the pieces of `spaces + tag + [separator] + name + trailing` start
      and end, as the fast-path scanners find them. */
  lemma QualifiedPositions(spaces: string, tag: string, separator: char, name: string, trailing: string)
    requires AllSpaces(spaces) && AllWordChars(tag) && AllSpaces(trailing)
    requires name != [] && AllWordChars(name)
    requires separator == '#' || separator == '.'
    ensures var css := spaces + tag + [separator] + name + trailing;
            var j := |spaces| + |tag|;
            var k := j + 1 + |name|;
            SkipSpaces(css, 0) == |spaces| && WordEnd(css, |spaces|) == j && j + 1 < k <= |css| && css[j] == separator &&
            WordEnd(css, j + 1) == k && SkipSpaces(css, k) == |css| &&
            css[|spaces|..j] == tag && css[j + 1..k] == name
  {
    LeadingSpaces(spaces, tag, separator, name, trailing);
    TagWord(spaces, tag, separator, name, trailing);
    NameWord(spaces, tag, separator, name, trailing);
    TrailingSpaces(spaces, tag, separator, name, trailing);
    QualifiedSlices(spaces, tag, separator, name, trailing);
  }

  lemma LeadingSpaces(spaces: string, tag: string, separator: char, name: string, trailing: string)
    requires AllSpaces(spaces) && AllWordChars(tag)
    requires separator == '#' || separator == '.'
    ensures SkipSpaces(spaces + tag + [separator] + name + trailing, 0) == |spaces|
  {
    var css := spaces + tag + [separator] + name + trailing;
    assert forall k | 0 <= k < |spaces| :: css[k] == spaces[k];
    if tag != [] {
      assert css[|spaces|] == tag[0] && IsWordChar(tag[0]);
    } else {
      assert css[|spaces|] == separator;
    }
    SkipSpacesStops(css, 0, |spaces|);
  }

  lemma TagWord(spaces: string, tag: string, separator: char, name: string, trailing: string)
    requires AllWordChars(tag)
    requires separator == '#' || separator == '.'
    ensures WordEnd(spaces + tag + [separator] + name + trailing, |spaces|) == |spaces| + |tag|
  {
    var css := spaces + tag + [separator] + name + trailing;
    var i := |spaces|;
    assert forall k | i <= k < i + |tag| :: css[k] == tag[k - i];
    assert css[i + |tag|] == separator;
    WordEndStops(css, i, i + |tag|);
  }

  lemma NameWord(spaces: string, tag: string, separator: char, name: string, trailing: string)
    requires AllSpaces(trailing) && AllWordChars(name)
    ensures var before := spaces + tag + [separator];
            WordEnd(before + name + trailing, |before|) == |before| + |name|
  {
    if trailing != [] {
      assert IsSpace(trailing[0]);
    }
    WordRun(spaces + tag + [separator], name, trailing);
  }

  lemma TrailingSpaces(spaces: string, tag: string, separator: char, name: string, trailing: string)
    requires AllSpaces(trailing)
    ensures var before := spaces + tag + [separator] + name;
            SkipSpaces(before + trailing, |before|) == |before| + |trailing|
  {
    SpacesAtEnd(spaces + tag + [separator] + name, trailing);
  }

  /** Trailing whitespace is skipped to the end. */
  lemma SpacesAtEnd(before: string, run: string)
    requires AllSpaces(run)
    ensures SkipSpaces(before + run, |before|) == |before| + |run|
  {
    var s := before + run;
    assert forall m | |before| <= m < |s| :: s[m] == run[m - |before|];
    SkipSpacesStops(s, |before|, |s|);
  }

  /** A run of word characters ends at the first character after it. */
  lemma WordRun(before: string, run: string, after: string)
    requires AllWordChars(run) && (after == [] || !IsWordChar(after[0]))
    ensures WordEnd(before + run + after, |before|) == |before| + |run|
  {
    var s := before + run + after;
    var i := |before|;
    assert forall k | i <= k < i + |run| :: s[k] == run[k - i];
    if after != [] {
      assert s[i + |run|] == after[0];
    }
    WordEndStops(s, i, i + |run|);
  }

  lemma QualifiedSlices(spaces: string, tag: string, separator: char, name: string, trailing: string)
    ensures var css := spaces + tag + [separator] + name + trailing;
            var j := |spaces| + |tag|;
            var k := j + 1 + |name|;
            css[j] == separator && css[|spaces|..j] == tag && css[j + 1..k] == name
  {
    var css := spaces + tag + [separator] + name + trailing;
    var j := |spaces| + |tag|;
    assert css[|spaces|..j] == tag;
    assert css[j + 1..j + 1 + |name|] == name;
  }
}
