/** The parsed objects of cssselect/parser.py: a closed tree of selector nodes,
    the `Selector` wrapper with its optional pseudo-element, their specificity
    (section 9 of the W3C Selectors Level 3 recommendation) and their `repr()`. */
module Selectors {
  import opened Wrappers
  import opened Tokens

  /** One node class of the source per constructor. `Element.element` is `*`
      or a tag name; qualifiers wrap the selector they qualify. */
  datatype Tree =
    | Element(namespace: string, element: string)
    | Hash(selector: Tree, id: string)
    | Class(selector: Tree, className: string)
    | Attrib(selector: Tree, namespace: string, attrib: string, operator: string, value: Option<Token>)
    | Pseudo(selector: Tree, ident: string)
    | Function(selector: Tree, name: string, argument: Token)
    | Negation(selector: Tree, subselector: Tree)
    | CombinedSelector(selector: Tree, combinator: string, subselector: Tree)

  datatype Selector = Selector(tree: Tree, pseudoElement: Option<string>)

  type Triple = (nat, nat, nat)

  /** Python truthiness of an optional string: `None` and `''` are false. */
  predicate Truthy(s: Option<string>) { s.Some? && s.value != "" }

  /** `specificity()` of every node class.

      The source's `Negation.specificity` reads `self.sub_selector` while the
      field is named `subselector`, so as written it raises `AttributeError`
      (see `SpecificityAsWritten`); this is the intended component-wise sum. */
  function Specificity(t: Tree): Triple {
    match t
    case Element(_, element) => if element == "*" then (0, 0, 0) else (0, 0, 1)
    case Hash(s, _) => Add(Specificity(s), (1, 0, 0))
    case Class(s, _) => Add(Specificity(s), (0, 1, 0))
    case Attrib(s, _, _, _, _) => Add(Specificity(s), (0, 1, 0))
    case Pseudo(s, _) => Add(Specificity(s), (0, 1, 0))
    case Function(s, _, _) => Add(Specificity(s), (0, 1, 0))
    case Negation(s, sub) => Add(Specificity(s), Specificity(sub))
    case CombinedSelector(s, _, sub) => Add(Specificity(s), Specificity(sub))
  }

  /** Component-wise sum. */
  function Add(x: Triple, y: Triple): Triple {
    (x.0 + y.0, x.1 + y.1, x.2 + y.2)
  }

  /** `Selector.specificity()`: a pseudo-element adds one to the last component. */
  function SelectorSpecificity(sel: Selector): Triple {
    Add(Specificity(sel.tree), if Truthy(sel.pseudoElement) then (0, 0, 1) else (0, 0, 0))
  }

  // ---------------------------------------------------------------------------
  // Section 9 of Selectors Level 3 as an independent definition: list the
  // simple selectors of the chain (the arguments of :not() included, :not()
  // itself not), then count ID selectors (a); class selectors, attribute
  // selectors and pseudo-classes (b); type selectors and pseudo-elements (c).
  // The universal selector is ignored.

  datatype Simple =
    | TypeSelector | UniversalSelector | IdSelector | ClassSelector
    | AttributeSelector | PseudoClass | PseudoElement

  function SimpleSelectors(t: Tree): seq<Simple> {
    match t
    case Element(_, element) => if element == "*" then [UniversalSelector] else [TypeSelector]
    case Hash(s, _) => SimpleSelectors(s) + [IdSelector]
    case Class(s, _) => SimpleSelectors(s) + [ClassSelector]
    case Attrib(s, _, _, _, _) => SimpleSelectors(s) + [AttributeSelector]
    case Pseudo(s, _) => SimpleSelectors(s) + [PseudoClass]
    case Function(s, _, _) => SimpleSelectors(s) + [PseudoClass]
    case Negation(s, sub) => SimpleSelectors(s) + SimpleSelectors(sub)
    case CombinedSelector(s, _, sub) => SimpleSelectors(s) + SimpleSelectors(sub)
  }

  function SelectorSimpleSelectors(sel: Selector): seq<Simple> {
    SimpleSelectors(sel.tree) + if Truthy(sel.pseudoElement) then [PseudoElement] else []
  }

  function W3CSpecificity(simples: seq<Simple>): Triple {
    var m := multiset(simples);
    (m[IdSelector], m[ClassSelector] + m[AttributeSelector] + m[PseudoClass],
     m[TypeSelector] + m[PseudoElement])
  }

  /** Counting over a concatenation adds the counts. */
  lemma W3CSpecificityConcat(xs: seq<Simple>, ys: seq<Simple>)
    ensures W3CSpecificity(xs + ys) == Add(W3CSpecificity(xs), W3CSpecificity(ys))
  {
    assert multiset(xs + ys) == multiset(xs) + multiset(ys);
  }

  /** What one simple selector adds to the count. */
  function Weight(k: Simple): Triple {
    match k
    case IdSelector => (1, 0, 0)
    case ClassSelector => (0, 1, 0)
    case AttributeSelector => (0, 1, 0)
    case PseudoClass => (0, 1, 0)
    case TypeSelector => (0, 0, 1)
    case PseudoElement => (0, 0, 1)
    case UniversalSelector => (0, 0, 0)
  }

  lemma AppendWeight(xs: seq<Simple>, k: Simple)
    ensures W3CSpecificity(xs + [k]) == Add(W3CSpecificity(xs), Weight(k))
  {
    W3CSpecificityConcat(xs, [k]);
    assert multiset([k]) == multiset{k};
  }

  /** The node-by-node fold agrees with the counting definition of section 9. */
  lemma {:induction false} SpecificityCountsSimpleSelectors(t: Tree)
    ensures Specificity(t) == W3CSpecificity(SimpleSelectors(t))
  {
    if t.Element? {
      AppendWeight([], if t.element == "*" then UniversalSelector else TypeSelector);
      assert [] + SimpleSelectors(t) == SimpleSelectors(t);
    } else if t.Negation? || t.CombinedSelector? {
      SpecificityCountsSimpleSelectors(t.selector);
      SpecificityCountsSimpleSelectors(t.subselector);
      PairCount(t);
    } else {
      SpecificityCountsSimpleSelectors(t.selector);
      QualifierCount(t);
    }
  }

  /** A qualifier adds its own simple selector to the count. */
  lemma QualifierCount(t: Tree)
    requires !t.Element? && !t.Negation? && !t.CombinedSelector?
    requires Specificity(t.selector) == W3CSpecificity(SimpleSelectors(t.selector))
    ensures Specificity(t) == W3CSpecificity(SimpleSelectors(t))
  {
    var k := if t.Hash? then IdSelector else if t.Class? then ClassSelector
             else if t.Attrib? then AttributeSelector else PseudoClass;
    assert SimpleSelectors(t) == SimpleSelectors(t.selector) + [k];
    AppendWeight(SimpleSelectors(t.selector), k);
  }

  /** A negation or a combined selector adds the counts of its two parts. */
  lemma PairCount(t: Tree)
    requires t.Negation? || t.CombinedSelector?
    requires Specificity(t.selector) == W3CSpecificity(SimpleSelectors(t.selector))
    requires Specificity(t.subselector) == W3CSpecificity(SimpleSelectors(t.subselector))
    ensures Specificity(t) == W3CSpecificity(SimpleSelectors(t))
  {
    assert SimpleSelectors(t) == SimpleSelectors(t.selector) + SimpleSelectors(t.subselector);
    W3CSpecificityConcat(SimpleSelectors(t.selector), SimpleSelectors(t.subselector));
  }

  lemma SelectorSpecificityCountsSimpleSelectors(sel: Selector)
    ensures SelectorSpecificity(sel) == W3CSpecificity(SelectorSimpleSelectors(sel))
  {
    SpecificityCountsSimpleSelectors(sel.tree);
    W3CSpecificityConcat(SimpleSelectors(sel.tree),
                         if Truthy(sel.pseudoElement) then [PseudoElement] else []);
  }

  /** `#lorem + foo#ipsum:first-child > bar:first-line` has specificity (2, 1, 3). */
  lemma SpecificityExample()
    ensures SelectorSpecificity(Selector(
      CombinedSelector(
        CombinedSelector(Hash(Element("*", "*"), "lorem"), "+",
                         Pseudo(Hash(Element("*", "foo"), "ipsum"), "first-child")),
        ">", Element("*", "bar")),
      Some("first-line"))) == (2, 1, 3)
  {
  }

  // ---------------------------------------------------------------------------
  // The source's Negation.specificity as written, which raises AttributeError.

  predicate ContainsNegation(t: Tree) {
    match t
    case Element(_, _) => false
    case Hash(s, _) => ContainsNegation(s)
    case Class(s, _) => ContainsNegation(s)
    case Attrib(s, _, _, _, _) => ContainsNegation(s)
    case Pseudo(s, _) => ContainsNegation(s)
    case Function(s, _, _) => ContainsNegation(s)
    case Negation(_, _) => true
    case CombinedSelector(s, _, sub) => ContainsNegation(s) || ContainsNegation(sub)
  }

  /** `specificity()` as the source is written: `None` stands for the
      `AttributeError` that `self.sub_selector` raises in `Negation`. */
  function SpecificityAsWritten(t: Tree): Option<Triple> {
    match t
    case Element(_, element) => Some(if element == "*" then (0, 0, 0) else (0, 0, 1))
    case Hash(s, _) => AddIfAny(SpecificityAsWritten(s), Some((1, 0, 0)))
    case Class(s, _) => AddIfAny(SpecificityAsWritten(s), Some((0, 1, 0)))
    case Attrib(s, _, _, _, _) => AddIfAny(SpecificityAsWritten(s), Some((0, 1, 0)))
    case Pseudo(s, _) => AddIfAny(SpecificityAsWritten(s), Some((0, 1, 0)))
    case Function(s, _, _) => AddIfAny(SpecificityAsWritten(s), Some((0, 1, 0)))
    case Negation(s, _) => None
    case CombinedSelector(s, _, sub) => AddIfAny(SpecificityAsWritten(s), SpecificityAsWritten(sub))
  }

  /** The sum of two results, failing if either failed. */
  function AddIfAny(x: Option<Triple>, y: Option<Triple>): Option<Triple> {
    if x.Some? && y.Some? then Some(Add(x.value, y.value)) else None
  }

  /** As written, specificity fails exactly on trees holding a `:not()`, and
      elsewhere agrees with the corrected definition. */
  lemma {:induction false} AsWrittenFailsExactlyOnNegation(t: Tree)
    ensures SpecificityAsWritten(t) == if ContainsNegation(t) then None else Some(Specificity(t))
  {
    match t
    case Element(_, _) =>
    case Hash(s, _) => AsWrittenFailsExactlyOnNegation(s);
    case Class(s, _) => AsWrittenFailsExactlyOnNegation(s);
    case Attrib(s, _, _, _, _) => AsWrittenFailsExactlyOnNegation(s);
    case Pseudo(s, _) => AsWrittenFailsExactlyOnNegation(s);
    case Function(s, _, _) => AsWrittenFailsExactlyOnNegation(s);
    case Negation(_, _) =>
    case CombinedSelector(s, _, sub) =>
      AsWrittenFailsExactlyOnNegation(s);
      AsWrittenFailsExactlyOnNegation(sub);
  }

  /** `:not(foo)` parses to this tree; as written its specificity raises, while
      the intended value is (0, 0, 1). */
  lemma NotFooSpecificity()
    ensures SpecificityAsWritten(Negation(Element("*", "*"), Element("*", "foo"))).None?
    ensures Specificity(Negation(Element("*", "*"), Element("*", "foo"))) == (0, 0, 1)
  {
  }

  // ---------------------------------------------------------------------------
  // Well-formedness that the parser establishes.

  const Combinators: set<string> := {" ", "+", ">", "~"}
  const AttribOperators: set<string> := {"^=", "$=", "*=", "=", "~=", "|=", "!="}
  /** The CSS 2.1 pseudo-elements that may be written with a single colon. */
  const LegacyPseudoElements: set<string> := {"first-line", "first-letter", "before", "after"}

  predicate IsArgumentToken(t: Token) { t.kind == SymbolKind || t.kind == StringKind }

  /** An attribute test: `exists` with no value, or one of the seven operators
      with a symbol or string value. */
  predicate ValidAttribTest(operator: string, value: Option<Token>) {
    (operator == "exists" && value.None?) ||
    (operator in AttribOperators && value.Some? && IsArgumentToken(value.value))
  }

  /** A compound selector: an element test with qualifiers and no combinator;
      the argument of a `:not()` is itself a compound with no `:not()`. */
  predicate IsCompound(t: Tree, allowNegation: bool) {
    match t
    case Element(_, _) => true
    case Hash(s, _) => IsCompound(s, allowNegation)
    case Class(s, _) => IsCompound(s, allowNegation)
    case Attrib(s, _, _, op, v) => IsCompound(s, allowNegation) && ValidAttribTest(op, v)
    case Pseudo(s, _) => IsCompound(s, allowNegation)
    case Function(s, _, arg) => IsCompound(s, allowNegation) && IsArgumentToken(arg)
    case Negation(s, sub) => allowNegation && IsCompound(s, allowNegation) && IsCompound(sub, false)
    case CombinedSelector(_, _, _) => false
  }

  /** Compound selectors joined left to right by the four combinators. */
  predicate IsChain(t: Tree) {
    match t
    case CombinedSelector(s, c, sub) => IsChain(s) && c in Combinators && IsCompound(sub, true)
    case _ => IsCompound(t, true)
  }

  /** A compound holds no `:not()` nested in another and no combinator. */
  lemma {:induction false} CompoundHasNoNestedNegation(t: Tree, allowNegation: bool)
    requires IsCompound(t, allowNegation)
    ensures !allowNegation ==> !ContainsNegation(t)
  {
    match t
    case Element(_, _) =>
    case Hash(s, _) => CompoundHasNoNestedNegation(s, allowNegation);
    case Class(s, _) => CompoundHasNoNestedNegation(s, allowNegation);
    case Attrib(s, _, _, _, _) => CompoundHasNoNestedNegation(s, allowNegation);
    case Pseudo(s, _) => CompoundHasNoNestedNegation(s, allowNegation);
    case Function(s, _, _) => CompoundHasNoNestedNegation(s, allowNegation);
    case Negation(s, sub) =>
  }

  // ---------------------------------------------------------------------------
  // __repr__

  function ClassName(t: Tree): string {
    match t
    case Element(_, _) => "Element"
    case Hash(_, _) => "Hash"
    case Class(_, _) => "Class"
    case Attrib(_, _, _, _, _) => "Attrib"
    case Pseudo(_, _) => "Pseudo"
    case Function(_, _, _) => "Function"
    case Negation(_, _) => "Negation"
    case CombinedSelector(_, _, _) => "CombinedSelector"
  }

  /** `ns|name`, or just `name` in the default namespace `*`. */
  function Qualified(namespace: string, name: string): string {
    if namespace == "*" then name else namespace + "|" + name
  }

  /** `%r` of an optional token. */
  function OptionalTokenRepr(v: Option<Token>, quote: string -> string): string {
    match v
    case None => "None"
    case Some(tok) => TokenRepr(tok, quote)
  }

  /** `repr()` of a node, `ClassName[...]` as every `__repr__` of the source
      formats it, given Python's `repr()` of a plain string as `quote` (used only
      for the tokens an `Attrib` or a `Function` holds). */
  function Repr(t: Tree, quote: string -> string): string
    decreases t, 2
  {
    ClassName(t) + "[" + ReprBody(t, quote) + "]"
  }

  /** Between the brackets: the element test, or the repr of the wrapped
      selector followed by what the node adds. */
  function ReprBody(t: Tree, quote: string -> string): string
    decreases t, 1
  {
    if t.Element? then Qualified(t.namespace, t.element)
    else Repr(t.selector, quote) + ReprTail(t, quote)
  }

  function ReprTail(t: Tree, quote: string -> string): string
    requires !t.Element?
    decreases t, 0
  {
    match t
    case Hash(_, id) => "#" + id
    case Class(_, name) => "." + name
    case Attrib(_, ns, attrib, op, v) =>
      if op == "exists" then "[" + Qualified(ns, attrib) + "]"
      else "[" + Qualified(ns, attrib) + " " + op + " " + OptionalTokenRepr(v, quote) + "]"
    case Pseudo(_, ident) => ":" + ident
    case Function(_, name, arg) => ":" + name + "(" + TokenRepr(arg, quote) + ")"
    case Negation(_, sub) => ":not(" + Repr(sub, quote) + ")"
    case CombinedSelector(_, comb, sub) =>
      " " + (if comb == " " then "<followed>" else comb) + " " + Repr(sub, quote)
  }

  function SelectorRepr(sel: Selector, quote: string -> string): string {
    "Selector[" + Repr(sel.tree, quote)
    + (if Truthy(sel.pseudoElement) then "::" + sel.pseudoElement.value else "") + "]"
  }

  /** A repr names the outermost node and is bracketed. */
  lemma ReprShape(t: Tree, quote: string -> string)
    ensures var r, n := Repr(t, quote), ClassName(t);
      |r| > |n| + 1 && r[..|n| + 1] == n + "[" && r[|r| - 1] == ']'
  {
    var n, body := ClassName(t), ReprBody(t, quote);
    assert (n + "[" + body + "]")[..|n| + 1] == n + "[";
  }

  /** For a qualifier or a combined selector, the repr goes on with the repr
      of the selector it wraps. */
  lemma ReprNestsSelector(t: Tree, quote: string -> string)
    requires !t.Element?
    ensures var r, k, inner := Repr(t, quote), |ClassName(t)| + 1, Repr(t.selector, quote);
      |r| > k + |inner| && r[k..k + |inner|] == inner
  {
    var n, inner := ClassName(t), Repr(t.selector, quote);
    var tail := ReprTail(t, quote);
    assert Repr(t, quote) == (n + "[") + inner + (tail + "]");
    InfixOf(n + "[", inner, tail + "]");
  }

  lemma InfixOf(a: string, b: string, c: string)
    ensures |a + b + c| >= |a| + |b| && (a + b + c)[|a|..|a| + |b|] == b
  {
  }
}
