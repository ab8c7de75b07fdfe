/** The XPath output builder of cssselect/xpath.py: `XPathExpr`, whose
    methods rewrite its fields in place, the `|`-union `XPathExprOr`, and the
    XPath 1.0 string-literal escaper `xpath_literal`.

    XPath 1.0 has no escape for the delimiter inside a string literal, so a
    value holding both quote characters is written as `concat(...)` of
    literals. `EvalLiteral` is an independent reading of the three forms the
    escaper emits, and `LiteralRoundTrip` proves the escaper correct against
    it. */
module XPath {
  import opened Wrappers
  import opened Text
  import Selectors

  /** Python's `x or ''` for an optional string. */
  function OrEmpty(s: Option<string>): string { if s.Some? then s.value else "" }

  /** The condition `add_condition` leaves: the new one alone when there was
      none (or an empty one), else the conjunction `old and (new)`. */
  function Conjoin(current: Option<string>, condition: string): (r: string)
    ensures Selectors.Truthy(current) ==> r == current.value + " and (" + condition + ")"
    ensures !Selectors.Truthy(current) ==> r == condition
  {
    if Selectors.Truthy(current) then current.value + " and (" + condition + ")" else condition
  }

  /** `[condition]`, or nothing when the condition is missing or empty. */
  function Bracket(condition: Option<string>): (r: string)
    ensures r == [] <==> !Selectors.Truthy(condition)
  {
    if Selectors.Truthy(condition) then "[" + condition.value + "]" else ""
  }

  /** `str()` of an expression with these fields: prefix (when set), path
      (when set), element, then the condition in brackets when it is
      non-empty. */
  function Render(prefix: Option<string>, path: Option<string>, element: string, condition: Option<string>): string {
    OrEmpty(prefix) + OrEmpty(path) + element + Bracket(condition)
  }

  /** The path `join` takes from `other`: its prefix and path, except that a
      lone star-slash added by `add_star_prefix` is dropped. */
  function JoinedPath(starPrefix: bool, prefix: Option<string>, path: Option<string>): string {
    if starPrefix && OrEmpty(prefix) + OrEmpty(path) == "*/" then "" else OrEmpty(prefix) + OrEmpty(path)
  }

  class XPathExpr {
    var prefix: Option<string>
    var path: Option<string>
    var element: string
    var condition: Option<string>
    var starPrefix: bool

    constructor (prefix: Option<string> := None, path: Option<string> := None, element: string := "*",
                 condition: Option<string> := None, starPrefix: bool := false)
      ensures this.prefix == prefix && this.path == path && this.element == element
      ensures this.condition == condition && this.starPrefix == starPrefix
    {
      this.prefix := prefix;
      this.path := path;
      this.element := element;
      this.condition := condition;
      this.starPrefix := starPrefix;
    }

    /** `__str__`. */
    function ToString(): string
      reads this
    {
      Render(prefix, path, element, condition)
    }

    /** `__repr__`. */
    function Repr(): string
      reads this
    {
      "XPathExpr[" + ToString() + "]"
    }

    /** `add_condition(condition)`: the condition becomes `condition`, or
        `old and (condition)` when there was a non-empty one. */
    method AddCondition(condition: string)
      modifies this
      ensures this.condition == Some(Conjoin(old(this.condition), condition))
      ensures prefix == old(prefix) && path == old(path) && element == old(element) && starPrefix == old(starPrefix)
      ensures Conjoin(old(this.condition), condition) != "" ==>
                ToString() == old(OrEmpty(prefix) + OrEmpty(path) + element) + "[" + Conjoin(old(this.condition), condition) + "]"
    {
      AddConditionString(prefix, path, element, this.condition, condition);
      if Selectors.Truthy(this.condition) {
        this.condition := Some(this.condition.value + " and (" + condition + ")");
      } else {
        this.condition := Some(condition);
      }
    }

    /** `add_path(part)`: the element moves to the end of the path and `part`
        becomes the element. */
    method AddPath(part: string)
      modifies this
      ensures path == Some(OrEmpty(old(path)) + old(element)) && element == part
      ensures prefix == old(prefix) && condition == old(condition) && starPrefix == old(starPrefix)
      ensures ToString() == old(OrEmpty(prefix) + OrEmpty(path) + element) + part + Bracket(condition)
    {
      AddPathString(prefix, path, element, condition, part);
      if path.None? {
        assert "" + element == element;
        path := Some(element);
      } else {
        path := Some(path.value + element);
      }
      element := part;
    }

    /** `add_prefix(p)`: `p` goes in front of a non-empty prefix, or replaces
        a missing or empty one. */
    method AddPrefix(p: string)
      modifies this
      ensures prefix == Some(if Selectors.Truthy(old(prefix)) then p + old(prefix).value else p)
      ensures path == old(path) && element == old(element) && condition == old(condition) && starPrefix == old(starPrefix)
      ensures ToString() == p + old(ToString())
    {
      AddPrefixString(p, prefix, path, element, condition);
      if Selectors.Truthy(prefix) {
        prefix := Some(p + prefix.value);
      } else {
        prefix := Some(p);
      }
    }

    /** `add_name_test()`: a named element becomes `*` with the condition
        `name() = 'element'`; `*` is left alone. */
    method AddNameTest()
      modifies this
      ensures old(element) == "*" ==> condition == old(condition) && element == "*"
      ensures old(element) != "*" ==>
                condition == Some(Conjoin(old(condition), "name() = " + XPathLiteral(old(element)))) && element == "*"
      ensures prefix == old(prefix) && path == old(path) && starPrefix == old(starPrefix)
    {
      if element == "*" {
        return;
      }
      AddCondition("name() = " + XPathLiteral(element));
      element := "*";
    }

    /** `add_star_prefix()`: a star-slash is appended to the path (which is
        created when it is missing or empty) and the star-prefix flag is set. */
    method AddStarPrefix()
      modifies this
      ensures path == Some(OrEmpty(old(path)) + "*/") && starPrefix
      ensures prefix == old(prefix) && element == old(element) && condition == old(condition)
      ensures ToString() == OrEmpty(prefix) + OrEmpty(old(path)) + "*/" + element + Bracket(condition)
    {
      AddStarPrefixString(prefix, path, element, condition);
      if Selectors.Truthy(path) {
        path := Some(path.value + "*/");
      } else {
        assert OrEmpty(path) == "";
        assert "" + "*/" == "*/";
        path := Some("*/");
      }
      starPrefix := true;
    }

    /** `join(combiner, other)`: this expression's string and `combiner`
        become its prefix, and `other`'s path, element and condition the
        rest. `other` may be this very object. */
    method Join(combiner: string, other: XPathExpr)
      modifies this
      ensures prefix == Some(old(ToString()) + combiner)
      ensures path == Some(old(JoinedPath(other.starPrefix, other.prefix, other.path)))
      ensures element == old(other.element) && condition == old(other.condition) && starPrefix == old(starPrefix)
      ensures ToString() == old(ToString()) + combiner +
                            if old(other.starPrefix && OrEmpty(other.prefix) + OrEmpty(other.path) == "*/")
                            then old(other.element + Bracket(other.condition)) else old(other.ToString())
    {
      var before := ToString();
      var otherPath := JoinedPath(other.starPrefix, other.prefix, other.path);
      var otherElement := other.element;
      var otherCondition := other.condition;
      JoinString(before, combiner, other.starPrefix, other.prefix, other.path, otherElement, otherCondition);
      prefix := Some(before + combiner);
      path := Some(otherPath);
      element := otherElement;
      condition := otherCondition;
      assert ToString() == Render(Some(before + combiner), Some(otherPath), otherElement, otherCondition);
    }
  }

  // What the builder methods do to the string form.

  /** After `add_condition`, the string is the old one up to the element,
      then the conjoined condition in brackets (when it is not empty). */
  lemma AddConditionString(prefix: Option<string>, path: Option<string>, element: string, current: Option<string>, condition: string)
    ensures var conjoined := Conjoin(current, condition);
            Render(prefix, path, element, Some(conjoined)) ==
            OrEmpty(prefix) + OrEmpty(path) + element + (if conjoined == "" then "" else "[" + conjoined + "]")
  {
  }

  /** After `add_path(part)`, the string gains `part` just before the
      bracketed condition. */
  lemma AddPathString(prefix: Option<string>, path: Option<string>, element: string, condition: Option<string>, part: string)
    ensures Render(prefix, Some(OrEmpty(path) + element), part, condition) ==
            OrEmpty(prefix) + OrEmpty(path) + element + part + Bracket(condition)
  {
  }

  /** After `add_prefix(p)`, the string is `p` followed by the old string. */
  lemma AddPrefixString(p: string, prefix: Option<string>, path: Option<string>, element: string, condition: Option<string>)
    ensures Render(Some(if Selectors.Truthy(prefix) then p + prefix.value else p), path, element, condition) ==
            p + Render(prefix, path, element, condition)
  {
    var rest := OrEmpty(path) + (element + Bracket(condition));
    RenderSplit(prefix, path, element, condition);
    Associative(OrEmpty(prefix), OrEmpty(path), element + Bracket(condition));
    if Selectors.Truthy(prefix) {
      var added := Some(p + prefix.value);
      RenderSplit(added, path, element, condition);
      Associative(p + prefix.value, OrEmpty(path), element + Bracket(condition));
      Associative(p, prefix.value, rest);
    } else {
      assert OrEmpty(prefix) == "";
      RenderSplit(Some(p), path, element, condition);
      Associative(p, OrEmpty(path), element + Bracket(condition));
      assert "" + rest == rest;
    }
  }

  /** After `add_star_prefix()`, the string gains a star-slash just before
      the element. */
  lemma AddStarPrefixString(prefix: Option<string>, path: Option<string>, element: string, condition: Option<string>)
    ensures Render(prefix, Some(OrEmpty(path) + "*/"), element, condition) ==
            OrEmpty(prefix) + OrEmpty(path) + "*/" + element + Bracket(condition)
  {
  }

  /** After `join(combiner, other)`, the string is the old string, then
      `combiner`, then `other`'s string, less the star-slash that `join`
      drops. */
  lemma JoinString(before: string, combiner: string, starPrefix: bool, prefix: Option<string>, path: Option<string>, element: string, condition: Option<string>)
    ensures var after := Render(Some(before + combiner), Some(JoinedPath(starPrefix, prefix, path)), element, condition);
            var other := Render(prefix, path, element, condition);
            if starPrefix && OrEmpty(prefix) + OrEmpty(path) == "*/" then
              other == "*/" + element + Bracket(condition) && after == before + combiner + element + Bracket(condition)
            else after == before + combiner + other
  {
    var head := OrEmpty(prefix) + OrEmpty(path);
    var tail := element + Bracket(condition);
    var joined := JoinedPath(starPrefix, prefix, path);
    RenderSplit(prefix, path, element, condition);
    RenderSplit(Some(before + combiner), Some(joined), element, condition);
    if starPrefix && head == "*/" {
      assert joined == "";
      assert (before + combiner) + "" == before + combiner;
    } else {
      assert joined == head;
      Associative(before + combiner, head, tail);
    }
  }

  /** The string form is the prefix and path, then the element and condition. */
  lemma RenderSplit(prefix: Option<string>, path: Option<string>, element: string, condition: Option<string>)
    ensures Render(prefix, path, element, condition) ==
            (OrEmpty(prefix) + OrEmpty(path)) + (element + Bracket(condition))
  {
    Associative(OrEmpty(prefix) + OrEmpty(path), element, Bracket(condition));
  }

  /** `XPathExprOr`: a `|` union of expressions, each behind the same prefix. */
  class XPathExprOr {
    const items: seq<XPathExpr>
    var prefix: Option<string>

    constructor (items: seq<XPathExpr>, prefix: Option<string> := None)
      ensures this.items == items && this.prefix == prefix
    {
      this.items := items;
      this.prefix := prefix;
    }

    /** `__str__`: the prefixed items joined by ` | `. */
    function ToString(): string
      reads this, items
    {
      JoinWith(" | ", Alternatives(OrEmpty(prefix), items))
    }

    /** `__repr__`, inherited from `XPathExpr` with this class's name. */
    function Repr(): string
      reads this, items
    {
      "XPathExprOr[" + ToString() + "]"
    }
  }

  /** The string of each item behind `prefix`, in order. */
  function Alternatives(prefix: string, items: seq<XPathExpr>): (r: seq<string>)
    reads items
    ensures |r| == |items| && forall k | 0 <= k < |items| :: r[k] == prefix + items[k].ToString()
  {
    if items == [] then [] else [prefix + items[0].ToString()] + Alternatives(prefix, items[1..])
  }

  /** A union of one expression is that expression behind the prefix, and
      each further item adds ` | `, the prefix and its string. */
  lemma UnionStrings(prefix: Option<string>, items: seq<XPathExpr>, item: XPathExpr)
    ensures JoinWith(" | ", Alternatives(OrEmpty(prefix), [item])) == OrEmpty(prefix) + item.ToString()
    ensures items != [] ==>
              JoinWith(" | ", Alternatives(OrEmpty(prefix), items + [item])) ==
              JoinWith(" | ", Alternatives(OrEmpty(prefix), items)) + " | " + OrEmpty(prefix) + item.ToString()
  {
    if items != [] {
      var p := OrEmpty(prefix);
      AlternativesAppend(p, items, item);
      JoinWithAppend(" | ", Alternatives(p, items), p + item.ToString());
      Associative(JoinWith(" | ", Alternatives(p, items)) + " | ", p, item.ToString());
    }
  }

  lemma AlternativesAppend(prefix: string, items: seq<XPathExpr>, item: XPathExpr)
    ensures Alternatives(prefix, items + [item]) == Alternatives(prefix, items) + [prefix + item.ToString()]
  {
    var r := Alternatives(prefix, items + [item]);
    assert forall k | 0 <= k < |items| :: (items + [item])[k] == items[k];
  }

  // ---------------------------------------------------------------------------
  // xpath_literal

  predicate AllApostrophes(s: string) { forall k | 0 <= k < |s| :: s[k] == '\'' }

  /** End of the run that starts at `i`: apostrophes, or characters other
      than the apostrophe. */
  function RunEnd(s: string, i: nat): (j: nat)
    requires i < |s|
    ensures i < j <= |s|
    ensures forall k | i <= k < j :: (s[k] == '\'') == (s[i] == '\'')
    ensures j == |s| || (s[j] == '\'') != (s[i] == '\'')
    decreases |s| - i
  {
    if i + 1 < |s| && (s[i + 1] == '\'') == (s[i] == '\'') then RunEnd(s, i + 1) else i + 1
  }

  /** `split_at_single_quotes(s)` without its empty strings: the re.split on
      the capturing pattern `('+)` yields the text between apostrophe runs
      and the runs themselves, in order, which are exactly the maximal runs
      of apostrophes and of other characters. */
  function QuoteRuns(s: string): (runs: seq<string>)
    ensures forall k | 0 <= k < |runs| :: runs[k] != [] && (AllApostrophes(runs[k]) || '\'' !in runs[k])
    decreases |s|
  {
    if s == [] then []
    else
      var j := RunEnd(s, 0);
      [s[..j]] + QuoteRuns(s[j..])
  }

  /** The runs put back together are the string. */
  lemma {:induction false} QuoteRunsConcat(s: string)
    ensures Concat(QuoteRuns(s)) == s
    decreases |s|
  {
    if s != [] {
      var j := RunEnd(s, 0);
      QuoteRunsConcat(s[j..]);
      ConcatCons(s[..j], QuoteRuns(s[j..]));
      assert s == s[..j] + s[j..];
    }
  }

  /** Neighbouring runs are of different kinds, so the runs are maximal. */
  lemma {:induction false} QuoteRunsAlternate(s: string)
    ensures var runs := QuoteRuns(s);
            forall k | 0 <= k < |runs| - 1 :: AllApostrophes(runs[k]) != AllApostrophes(runs[k + 1])
    decreases |s|
  {
    if s != [] {
      var j := RunEnd(s, 0);
      QuoteRunsAlternate(s[j..]);
      var runs := QuoteRuns(s);
      var rest := QuoteRuns(s[j..]);
      assert runs == [s[..j]] + rest;
      if j < |s| {
        FirstRun(s);
        FirstRun(s[j..]);
        assert forall k | 1 <= k < |runs| :: runs[k] == rest[k - 1];
      }
    }
  }

  /** The first run starts with the string's first character, and is a run of
      apostrophes exactly when that character is one. */
  lemma FirstRun(s: string)
    requires s != []
    ensures QuoteRuns(s) != [] && QuoteRuns(s)[0] != []
    ensures AllApostrophes(QuoteRuns(s)[0]) == (s[0] == '\'')
  {
    var j := RunEnd(s, 0);
    assert QuoteRuns(s)[0] == s[..j];
    assert s[..j][0] == s[0];
  }

  /** A string holding an apostrophe and another character splits into at
      least two runs. */
  lemma MixedStringHasTwoRuns(s: string, i: nat, j: nat)
    requires i < |s| && j < |s| && s[i] == '\'' && s[j] != '\''
    ensures |QuoteRuns(s)| >= 2
  {
    var e := RunEnd(s, 0);
    var k := if s[0] == '\'' then j else i;
    assert (s[k] == '\'') != (s[0] == '\'');
    assert e <= k;
    assert QuoteRuns(s) == [s[..e]] + QuoteRuns(s[e..]);
    assert QuoteRuns(s[e..]) != [];
  }

  /** One `concat()` argument: a run holding an apostrophe in double quotes,
      any other in single quotes. */
  function QuotePiece(part: string): string {
    if '\'' in part then "\"" + part + "\"" else "'" + part + "'"
  }

  function QuotePieces(parts: seq<string>): (r: seq<string>)
    ensures |r| == |parts| && forall k | 0 <= k < |parts| :: r[k] == QuotePiece(parts[k])
  {
    if parts == [] then [] else [QuotePiece(parts[0])] + QuotePieces(parts[1..])
  }

  /** `xpath_literal(s)` for a string `s`. */
  function XPathLiteral(s: string): (r: string)
    ensures |r| >= 2
  {
    if '\'' !in s then "'" + s + "'"
    else if '"' !in s then "\"" + s + "\""
    else "concat(" + JoinWith(",", QuotePieces(QuoteRuns(s))) + ")"
  }

  // ---------------------------------------------------------------------------
  // Reading XPath string expressions back

  /** The value of an XPath 1.0 string literal, `'...'` or `"..."`, in which
      the delimiter cannot occur. */
  function LiteralValue(t: string): Option<string> {
    if |t| >= 2 && (t[0] == '\'' || t[0] == '"') && t[|t| - 1] == t[0] && t[0] !in t[1..|t| - 1] then
      Some(t[1..|t| - 1])
    else None
  }

  /** The values of a comma-separated list of string literals. */
  function ConcatArguments(t: string): Option<seq<string>>
    decreases |t|
  {
    if t == [] || !(t[0] == '\'' || t[0] == '"') then None
    else match IndexOfFrom(t, t[0], 1)
      case None => None
      case Some(j) =>
        if j + 1 == |t| then Some([t[1..j]])
        else if t[j + 1] != ',' then None
        else match ConcatArguments(t[j + 2..])
          case None => None
          case Some(rest) => Some([t[1..j]] + rest)
  }

  /** The value of a string literal, or of a call of `concat` (which takes two
      or more arguments) on string literals. */
  function EvalLiteral(e: string): Option<string> {
    if |e| >= 8 && e[..7] == "concat(" && e[|e| - 1] == ')' then
      match ConcatArguments(e[7..|e| - 1])
        case Some(args) => if |args| >= 2 then Some(Concat(args)) else None
        case None => None
    else LiteralValue(e)
  }

  /** A quoted piece is read back as the run it quotes. */
  lemma {:induction false} PiecesReadBack(parts: seq<string>)
    requires parts != []
    requires forall k | 0 <= k < |parts| :: parts[k] != [] && (AllApostrophes(parts[k]) || '\'' !in parts[k])
    ensures ConcatArguments(JoinWith(",", QuotePieces(parts))) == Some(parts)
  {
    var part := parts[0];
    assert parts[0] in parts;
    var q := QuoteFor(part);
    if |parts| == 1 {
      SingleArgument(part, q);
      assert parts == [part];
    } else {
      assert parts[1..][0] == parts[1];
      assert forall k | 0 <= k < |parts[1..]| :: parts[1..][k] == parts[k + 1];
      PiecesReadBack(parts[1..]);
      MoreArguments(part, q, parts[1..]);
      assert [part] + parts[1..] == parts;
    }
  }

  /** The quote `QuotePiece` puts around `part`. */
  function QuoteFor(part: string): (q: char)
    ensures part != [] && (AllApostrophes(part) || '\'' !in part) ==> q !in part
    ensures QuotePiece(part) == [q] + part + [q]
  {
    if '\'' in part then QuoteForMixed(part); '"' else '\''
  }

  lemma QuoteForMixed(part: string)
    requires '\'' in part
    ensures part != [] && AllApostrophes(part) ==> '"' !in part
  {
  }

  lemma SingleArgument(part: string, q: char)
    requires (q == '\'' || q == '"') && q !in part
    requires QuotePiece(part) == [q] + part + [q]
    ensures ConcatArguments(JoinWith(",", QuotePieces([part]))) == Some([part])
  {
    assert QuotePieces([part]) == [QuotePiece(part)];
    assert [q] + part + [q] + "" == [q] + part + [q];
    FirstArgument(part, q, "");
  }

  lemma MoreArguments(part: string, q: char, parts: seq<string>)
    requires (q == '\'' || q == '"') && q !in part
    requires QuotePiece(part) == [q] + part + [q]
    requires parts != [] && ConcatArguments(JoinWith(",", QuotePieces(parts))) == Some(parts)
    ensures ConcatArguments(JoinWith(",", QuotePieces([part] + parts))) == Some([part] + parts)
  {
    var rest := JoinWith(",", QuotePieces(parts));
    QuotePiecesCons(part, parts);
    JoinWithCons(",", QuotePiece(part), QuotePieces(parts));
    FirstArgument(part, q, "," + rest);
    assert ("," + rest)[1..] == rest;
  }

  lemma QuotePiecesCons(part: string, parts: seq<string>)
    ensures QuotePieces([part] + parts) == [QuotePiece(part)] + QuotePieces(parts)
  {
    assert ([part] + parts)[1..] == parts;
  }

  lemma JoinWithCons(sep: string, first: string, parts: seq<string>)
    requires parts != []
    ensures JoinWith(sep, [first] + parts) == first + (sep + JoinWith(sep, parts))
  {
    assert ([first] + parts)[1..] == parts;
  }

  /** The first argument of a `concat` argument list, quoted with `q`, is read
      back, and what comes after it decides the rest. */
  lemma FirstArgument(part: string, q: char, after: string)
    requires (q == '\'' || q == '"') && q !in part
    ensures ConcatArguments([q] + part + [q] + after) ==
            if after == [] then Some([part])
            else if after[0] != ',' then None
            else match ConcatArguments(after[1..])
              case None => None
              case Some(rest) => Some([part] + rest)
  {
    var t := [q] + part + [q] + after;
    var j := |part| + 1;
    assert t[j] == q;
    assert forall k | 1 <= k < j :: t[k] == part[k - 1];
    IndexOfFromFirst(t, q, 1, j);
    assert t[1..j] == part;
    if after != [] {
      assert t[j + 1] == after[0];
      assert t[j + 2..] == after[1..];
    }
  }

  /** `xpath_literal` is correct: its output, read as an XPath expression, is
      the input. In the `concat()` form there are at least two arguments, as
      XPath requires. */
  lemma LiteralRoundTrip(s: string)
    ensures EvalLiteral(XPathLiteral(s)) == Some(s)
  {
    if '\'' !in s {
      QuotedRoundTrip(s, '\'');
    } else if '"' !in s {
      QuotedRoundTrip(s, '"');
    } else {
      ConcatRoundTrip(s);
    }
  }

  lemma QuotedRoundTrip(s: string, q: char)
    requires q == '\'' || q == '"'
    requires q !in s
    ensures EvalLiteral([q] + s + [q]) == Some(s)
    ensures q == '\'' ==> XPathLiteral(s) == [q] + s + [q]
    ensures q == '"' && '\'' in s ==> XPathLiteral(s) == [q] + s + [q]
  {
    var e := [q] + s + [q];
    assert e[0] == q && e[|e| - 1] == q;
    assert e[1..|e| - 1] == s;
  }

  lemma ConcatRoundTrip(s: string)
    requires '\'' in s && '"' in s
    ensures EvalLiteral(XPathLiteral(s)) == Some(s)
  {
    var runs := QuoteRuns(s);
    var i :| 0 <= i < |s| && s[i] == '\'';
    var j :| 0 <= j < |s| && s[j] == '"';
    MixedStringHasTwoRuns(s, i, j);
    PiecesReadBack(runs);
    QuoteRunsConcat(s);
    EvalConcat(JoinWith(",", QuotePieces(runs)), runs);
  }

  /** A `concat` call is read as the concatenation of its arguments. */
  lemma EvalConcat(body: string, args: seq<string>)
    requires ConcatArguments(body) == Some(args) && |args| >= 2
    ensures EvalLiteral("concat(" + body + ")") == Some(Concat(args))
  {
    var e := "concat(" + body + ")";
    assert e[..7] == "concat(";
    assert e[7..|e| - 1] == body;
  }

  /** The two quoted forms, on values from the source's quoting tests. */
  lemma QuotedExamples()
    ensures XPathLiteral("'") == "\"'\""
    ensures XPathLiteral("\"\"\"") == "'\"\"\"'"
  {
  }
}
