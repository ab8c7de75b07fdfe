# cssselect front end and XPath builder, in Dafny

A Dafny model of two parts of cssselect, with proofs about the model:

- **The selector front end of `cssselect/parser.py`.** This covers:
  - the tokenizer, with its comment stripping, string and escape handling, and identifiers;
  - the `TokenStream` cursor;
  - the recursive-descent parser `parse` → `parse_selector_group` → `parse_selector` → `parse_simple_selector` / `parse_attrib`, with the three regular-expression fast paths;
  - the selector tree, with `specificity()` and `repr()`;
  - the `An+B` reader `parse_series`.
- **The XPath string builder of `cssselect/xpath.py`.** This covers `XPathExpr` and its in-place builder methods, the union `XPathExprOr`, and the literal escaper `xpath_literal`.

The files build on one another:

- `wrappers.dfy`: `Option`, `Result` and `Status`.
- `text.dfy`: character classes, decimal and hex values, Python's `int()` on strings, and `str.strip()`.
- `tokens.dfy`: the three token classes compared by text, and the errors.
- `selectors.dfy`: the tree, specificity and its W3C reference count, and `repr`.
- `series.dfy`: `parse_series`.
- `escapes.dfy`: the `split_at_string_escapes` split and `unescape_string_literal`.
- `tokenizer.dfy`: `tokenize`, `tokenize_escaped_string`, `tokenize_symbol`, and the facts about the token list.
- `stream.dfy`: `TokenStream` as a class, and its effect on a `Cursor`, which is the number of tokens consumed plus the pending tokenizer exception.
- `grammar.dfy`: the parser as functions from a token list and a `Cursor` to a result and a new `Cursor`, with what a successful parse guarantees and which inputs are rejected.
- `parser.dfy`: the parser as methods over a `TokenStream`. Each is proved to compute its `grammar.dfy` function.
- `xpath.dfy`: `XPathExpr`, `XPathExprOr` and `xpath_literal`, with an evaluator of XPath string literals and `concat()` that reads the escaper's output back.

Two things are treated as parameters:

- The `unicode_escape` codec that `tokenize_symbol` applies to identifiers holding a backslash is a parameter `decode`.
- Python's `repr()` of a plain string, used inside token reprs, is a parameter `quote`.

Errors are values (`Outcome`), not exceptions:

- a `SelectorSyntaxError` carries a reason and no message text;
- the `ValueError` of `chr()` above U+10FFFF is kept apart;
- a surrogate code point is a separate `Unrepresentable` error.

The token generator is modelled as the token list it yields plus the exception it raises after the last token. The stream raises that exception once, when asked past the end, and is exhausted afterwards, as a Python generator is.

## Model

| member | source | states |
|---|---|---|
| Selectors.SpecificityCountsSimpleSelectors | cssselect/parser.py:62-236 | the specificity fold equals the W3C count: (ids, classes + attributes + pseudo-classes, type selectors) over the simple selectors the tree holds, where `*` does not count and a negation counts its argument |
| Selectors.Specificity | cssselect/parser.py:86-236 | the node-by-node `specificity()` fold, with `Negation` summing its two parts as intended; its meaning is proved in `SpecificityCountsSimpleSelectors` |
| Selectors.SelectorSpecificity | cssselect/parser.py:62-71 | `Selector.specificity()`; proved in `SelectorSpecificityCountsSimpleSelectors` |
| Selectors.SpecificityAsWritten | cssselect/parser.py:141-144 | the fold as written, failing on `Negation`; proved in `AsWrittenFailsExactlyOnNegation` |
| Selectors.SelectorSpecificityCountsSimpleSelectors | cssselect/parser.py:62-71 | a selector's specificity is that count with a pseudo-element adding one to the third component exactly when it is present and non-empty |
| Selectors.SpecificityExample | tests/test_cssselect.py:323-327 | `#lorem + foo#ipsum:first-child > bar:first-line` has specificity (2, 1, 3) |
| Selectors.AsWrittenFailsExactlyOnNegation | cssselect/parser.py:141-144 | the specificity as the source writes it fails exactly on trees holding a `Negation`, and equals the intended one everywhere else |
| Selectors.NotFooSpecificity | cssselect/parser.py:141-144 | for `:not(foo)` the as-written method fails, while the intended sum, which the tests expect, is (0, 0, 1) |
| Selectors.CompoundHasNoNestedNegation | cssselect/parser.py:379-383 | a compound selector as the parser builds it never holds a negation inside a negation |
| Selectors.ReprShape | cssselect/parser.py:54-236 | every node's repr is its class name, `[`, and a body, ending in `]` |
| Selectors.ReprNestsSelector | cssselect/parser.py:82-236 | a qualifier's or combined selector's repr continues, right after `ClassName[`, with the repr of the selector it wraps |
| Selectors.Repr | cssselect/parser.py:82-236 | `repr()` of a node as `ClassName[body]`; its shape is proved in `ReprShape` and `ReprNestsSelector` |
| Selectors.ReprBody | cssselect/parser.py:82-236 | the body of a node's repr: the element test, or the wrapped selector's repr then what the node adds |
| Selectors.ReprTail | cssselect/parser.py:82-236 | what each qualifier or combinator adds after the wrapped selector's repr |
| Selectors.SelectorRepr | cssselect/parser.py:54-60 | `Selector.__repr__`: the tree's repr, then `::name` for a non-empty pseudo-element |
| Tokens.TokenRepr | cssselect/parser.py:488-492 | `repr()` of a token as its class name, the quoted text and the offset |
| Series.FormatSeriesRoundTrip | cssselect/parser.py:464-477 | every pair (a, b) is read back by `parse_series` from its rendering `An+B` / `An-B` |
| Series.ParseSeries | cssselect/parser.py:443-477 | `parse_series`; its behaviour is proved in `FormatSeriesRoundTrip`, `FixedCases`, `WithoutN` and `SplitAtFirstN` |
| Series.FixedCases | cssselect/parser.py:449-460 | `''` and `*` give (0, 0); an int b gives (0, b); `odd`, `even` and `n` give (2, 1), (2, 0) and (1, 0) |
| Series.WithoutN | cssselect/parser.py:461-463 | a string with no `n` is `int()` of the whole string as b, or `ValueError` |
| Series.SplitAtFirstN | cssselect/parser.py:464-477 | otherwise the string is split at its first `n`: an empty left side means 1, a lone sign ±1, anything else `int()`; on the right, empty means 0, a lone sign ±1 (so `n+` is (1, 1)), anything else `int()` |
| Series.CoefficientExamples | cssselect/parser.py:464-477 | `1n+3` gives (1, 3) and `3n` gives (3, 0) |
| Series.SignExamples | cssselect/parser.py:465-468 | `n-5` gives (1, -5), `+n` gives (1, 0) and `-n` gives (-1, 0) |
| Series.IntegerExamples | cssselect/parser.py:461-463 | `5` gives (0, 5), and ` 7 ` gives (0, 7) because `int()` allows surrounding whitespace |
| Series.WordExample | cssselect/parser.py:461-463 | `foo` raises `ValueError` |
| Series.DanglingSignExample | cssselect/parser.py:473-474 | `n+` gives (1, 1) |
| Series.SpaceAfterSignExample | cssselect/parser.py:475-476 | `1n+ 3` raises `ValueError`, since `int('+ 3')` does |
| Text.ParseIntToString | cssselect/parser.py:470 | `int(str(i)) == i` for every integer |
| Text.ParseInt | cssselect/parser.py:463 | Python's `int()` on a string; proved to invert `str()` in `ParseIntToString` and `ParseIntPlus` |
| Text.ParseIntPlus | cssselect/parser.py:476 | `int('+' + str(n)) == n` |
| Escapes.FirstEscape | cssselect/parser.py:549-551 | the first backslash at or after `i` that has a character after it, or none |
| Escapes.HexRunEnd | cssselect/parser.py:550 | the end of the run of at most `n` hex digits from `i`, maximal unless `n` digits were taken |
| Escapes.EscapeEnd | cssselect/parser.py:549-551 | the end of the escape at `i` is at least two characters on |
| Escapes.SplitEscapes | cssselect/parser.py:549-551 | the split alternates plain text and escapes, so it has an odd number of parts |
| Escapes.SplitEscapesConcat | cssselect/parser.py:549-551 | the parts of the split put back together are the string |
| Escapes.SplitEscapesMatches | cssselect/parser.py:549-551 | every odd part is an escape: a backslash and at least one more character |
| Escapes.CodePoint | cssselect/parser.py:564 | `chr(v)` is the one-character string of code point v, failing exactly above U+10FFFF or on a surrogate |
| Escapes.LeadingHex | cssselect/parser.py:562-564 | the maximal leading run of hex digits |
| Escapes.UnescapePiece | cssselect/parser.py:557-569 | a part without a backslash is kept; the only failures are the invalid-escape error and the two code-point errors |
| Escapes.UnescapePiecesCons | cssselect/parser.py:556-570 | the result is the first part's value followed by the rest's, and the first failure wins |
| Escapes.UnescapePieces | cssselect/parser.py:556-570 | the only failures are the invalid-escape error and the two code-point errors |
| Escapes.Unescape | cssselect/parser.py:554-570 | the only failures are the invalid-escape error and the two code-point errors |
| Escapes.UnescapeStringLiteral | cssselect/parser.py:554-570 | the loop over the split computes `Unescape` |
| Escapes.PrependPrepend | cssselect/parser.py:569-570 | proof helper for the loop of `UnescapeStringLiteral`, not a model of its own: prefixing two strings in turn is prefixing their concatenation |
| Escapes.UnescapeVerbatim | cssselect/parser.py:589-590 | a literal without a backslash unescapes to itself |
| Escapes.HexDigitChar | cssselect/parser.py:562 | the hex digit character of a value below 16 reads back as that value |
| Escapes.HexDigits | cssselect/parser.py:550 | a `width`-character string of hex digits |
| Escapes.HexDigitsValue | cssselect/parser.py:564 | the hex digits of n read back as n |
| Escapes.SplitEscapeChar | cssselect/parser.py:549-551 | a six-digit escape ended by a space splits off as one escape, whatever follows it |
| Escapes.UnescapeEscapeChar | cssselect/parser.py:560-564 | the fixed six-digit, space-terminated escape `EscapeAll` writes decodes to its character; every other code-point escape is covered by `CodePointEscape` |
| Escapes.CodePointEscape | cssselect/parser.py:549-564 | a backslash, one to six hex digits and a terminator (none, CRLF or one whitespace character) that the rest of the literal does not extend decode to the code point of those digits followed by the value of the rest; an invalid code point is the first error |
| Escapes.CodePointEscapeSplits | cssselect/parser.py:549-551 | such an escape is split off as exactly one escape piece, whatever the rest is |
| Escapes.CodePointEscapePiece | cssselect/parser.py:560-564 | such an escape piece is `chr` of its hex digits; `int(..., 16)` ignores the terminator |
| Escapes.HexRunSplit | cssselect/parser.py:550 | the greedy `{1,6}` hex run covers exactly the given hex digits when the run stops after them |
| Escapes.UnescapeEscapeAll | cssselect/parser.py:554-570 | escaping every character of a string as a six-digit hex escape and then unescaping gives the string back |
| Escapes.UnescapeSimpleEscape | cssselect/parser.py:549-561 | a backslash followed by a character that is not a hex digit, at the head of a literal followed by any text, decodes to that character followed by the value of the rest |
| Escapes.UnescapePlainPrefix | cssselect/parser.py:554-570 | text without a backslash in front of any literal comes through unchanged before the value of the literal, so the escape lemmas apply anywhere in a literal |
| Escapes.TrailingBackslash | cssselect/parser.py:565-568 | a trailing backslash is an invalid escape |
| Tokenizer.FindCommentClose | cssselect/parser.py:508 | the first `*/` at or after `i`, or none |
| Tokenizer.StripComments | cssselect/parser.py:508-514 | removing comments never lengthens the string |
| Tokenizer.StripCommentsNoComment | cssselect/parser.py:508-514 | a string with no comment opener is unchanged |
| Tokenizer.LeadingComment | cssselect/parser.py:508-514 | a leading comment is removed up to its first closing `*/` (non-greedy) |
| Tokenizer.DigitsEnd | cssselect/parser.py:510 | the end of the maximal digit run from `i` |
| Tokenizer.CountNumberEnd | cssselect/parser.py:510 | the match of `[+-]?\d*n(?:[+-]\d+)?` at `pos` is non-empty and made of signs, digits and `n` |
| Tokenizer.CountNumberMatches | cssselect/parser.py:510 | the text it matches has the pattern's shape: an optionally signed digit run, `n`, then optionally a sign and digits |
| Tokenizer.CountNumberShape | cssselect/parser.py:510 | a text laid out as an optional sign, digits, `n` and an optional signed digit run matches the pattern |
| Tokenizer.CountNumberToken | cssselect/parser.py:522-527 | such a run, other than a bare `n`, is a single `Symbol` token holding exactly the matched text |
| Tokenizer.CountNumberNotSpace | cssselect/parser.py:522-527 | a matched run does not end in whitespace |
| Tokenizer.TwoCharOperatorsAgree | cssselect/parser.py:530 | the test on two characters is membership in the seven two-character operators |
| Tokenizer.DelimitersAgree | cssselect/parser.py:534 | the test on a character is membership in the fourteen one-character delimiters |
| Tokenizer.SymbolCharNotSpace | cssselect/parser.py:594 | an identifier character is not whitespace |
| Tokenizer.IllegalSymbolFrom | cssselect/parser.py:594-598 | the first position at or after `pos` holding a character outside `[\w\\-]`, or none |
| Tokenizer.UnicodeEscape | cssselect/parser.py:611-617 | text without a backslash passes through the codec unchanged |
| Tokenizer.TokenizeSymbol | cssselect/parser.py:596-618 | the identifier is the maximal run of identifier characters; without a backslash it is the text itself; a non-identifier character at `pos` is exactly the unexpected-symbol error; the only failures are that and the bad-symbol error |
| Tokenizer.FindClosingQuote | cssselect/parser.py:578-588 | the first quote at or after `pos` that is not preceded by a backslash within the string's content, or none |
| Tokenizer.ScanForClose | cssselect/parser.py:578-588 | the `while 1` loop, jumping from quote to quote, finds exactly the closing quote `FindClosingQuote` defines, or none |
| Tokenizer.EscapedString | cssselect/parser.py:573-591 | a string ends at the first closing quote whose content does not end in a backslash; without a backslash the token text is that content; the unclosed-string error is raised exactly when no such quote exists |
| Tokenizer.TokenizeEscapedString | cssselect/parser.py:573-591 | the scanning loop computes `EscapedString` |
| Tokenizer.StringOrSymbol | cssselect/parser.py:538-547 | a string or identifier token is a `String` or `Symbol` at `pos` and ends in a non-space character |
| Tokenizer.OperatorToken | cssselect/parser.py:522-537 | an `An+B` run, two-character operator or delimiter at `pos` is a token other than whitespace, starting at `pos` and ending in a non-space character |
| Tokenizer.OtherToken | cssselect/parser.py:522-547 | a token that starts with a non-space character is never a whitespace token and ends in a non-space character |
| Tokenizer.NextToken | cssselect/parser.py:516-547 | each step yields a token at `pos` and moves forward |
| Tokenizer.MatchAt | cssselect/parser.py:516-547 | one turn of the loop, trying the matchers in order, yields exactly the token and end `NextToken` defines, or its exception |
| Tokenizer.NextTokenWhitespace | cssselect/parser.py:517-521 | a whitespace run gives exactly one `' '` token and is consumed whole; only whitespace gives a whitespace token |
| Tokenizer.TokenizeFrom | cssselect/parser.py:512-547 | all token offsets lie in the stripped string, and the first token is at `pos` |
| Tokenizer.Tokenized | cssselect/parser.py:512-547 | `list(tokenize(css))` as the tokens and the exception after them; every token offset lies in the comment-stripped string |
| Tokenizer.TokenizeStep | cssselect/parser.py:516-547 | one loop iteration contributes its token in front of the rest |
| Tokenizer.TokenizeAppend | cssselect/parser.py:516-547 | the loop invariant of `Tokenize` is kept by a successful step |
| Tokenizer.TokenizeStepErr | cssselect/parser.py:516-547 | a failing step ends the tokens with that exception |
| Tokenizer.Tokenize | cssselect/parser.py:512-547 | the `while` loop computes the token list and the exception that ends it |
| Tokenizer.OffsetsIncrease | cssselect/parser.py:516-547 | token offsets strictly increase |
| Tokenizer.WhitespaceRunsStep | cssselect/parser.py:517-521 | the whitespace-run property extends by one token |
| Tokenizer.WhitespaceRuns | cssselect/parser.py:516-547 | from a run boundary, every whitespace token stands at the start of a maximal whitespace run, reaches to the next token, and is followed by a token that is not whitespace |
| Tokenizer.NextTokenEndsAtBoundary | cssselect/parser.py:516-547 | every token ends at a boundary of whitespace runs |
| Tokenizer.WhitespaceRunsAt | cssselect/parser.py:516-547 | the whitespace-run property at `pos` follows from it after the first token |
| Tokenizer.WhitespaceRunsTokenized | cssselect/parser.py:512-547 | the whitespace-run property holds for `tokenize` of every input, against the comment-stripped string |
| Tokenizer.TwoCharOperatorFirst | cssselect/parser.py:529-537 | a two-character operator is one token, even where its first character is a delimiter |
| Tokenizer.UnexpectedCharacter | cssselect/parser.py:602-604 | a character that starts no token raises the unexpected-symbol error |
| Tokenizer.ExclamationMark | cssselect/parser.py:602-604 | `!` alone yields no token and then the unexpected-symbol error |
| Tokenizer.UnclosedQuote | cssselect/parser.py:580-583 | a quote with no closing quote raises the unclosed-string error |
| Tokenizer.QuotedString | cssselect/parser.py:538-542 | a quoted string without backslashes is a `String` token holding the text between the quotes, and the scan ends after the closing quote |
| Tokenizer.QuotedStringCloses | cssselect/parser.py:579-588 | its closing quote is the one found |
| Tokenizer.QuoteStartsString | cssselect/parser.py:522-542 | at a quote character no earlier matcher applies, so the token is a string |
| Stream.PeekAt | cssselect/parser.py:650-657 | `peek` consumes nothing; `None` only at the end with nothing pending; the pending exception is raised only at the end and is then cleared |
| Stream.NextAt | cssselect/parser.py:634-645 | `next` returns what `peek` would, and consumes exactly one token when it returns one |
| Stream.NextSymbolAt | cssselect/parser.py:659-664 | `next_symbol` succeeds only with the next token, and only when it is a `Symbol` |
| Stream.NextSymbolOrStarAt | cssselect/parser.py:666-671 | `next_symbol_or_star` succeeds only with the next token, and only when it is a `Symbol` or has text `*` |
| Stream.SkipWhitespaceAt | cssselect/parser.py:673-675 | `skip_whitespace` consumes at most one token, exactly when its text is `' '`; it fails only on the pending exception at the end |
| Stream.PeekThenNextAt | cssselect/parser.py:634-657 | `peek` is idempotent, and `next` after a successful `peek` acts as a lone `next` |
| Stream.TokenStream.State | cssselect/parser.py:621-627 | `used` is exactly the first `pos` tokens |
| Stream.TokenStream.constructor | cssselect/parser.py:622-632 | a new stream has consumed nothing |
| Stream.TokenStream.Next | cssselect/parser.py:634-645 | appends exactly the returned token to `used`, or leaves `used` unchanged at the end |
| Stream.TokenStream.Peek | cssselect/parser.py:650-657 | never changes `used`, and has the effect `PeekAt` gives |
| Stream.TokenStream.Pull | cssselect/parser.py:628-632 | pulling from the generator gives the next unpulled token, or the pending exception once |
| Stream.TokenStream.NextSymbol | cssselect/parser.py:659-664 | has the effect `NextSymbolAt` gives |
| Stream.TokenStream.NextSymbolOrStar | cssselect/parser.py:666-671 | has the effect `NextSymbolOrStarAt` gives |
| Stream.TokenStream.SkipWhitespace | cssselect/parser.py:673-675 | has the effect `SkipWhitespaceAt` gives |
| Stream.PeekThenNext | cssselect/parser.py:634-657 | two peeks and a next return the same token, and `used` grows by exactly that token |
| Grammar.CombinatorsAgree | cssselect/parser.py:310-317 | the combinators written inline are `' '`, `+`, `>` and `~` |
| Grammar.AttribOperatorsAgree | cssselect/parser.py:431 | the operator test is membership in the seven attribute operators |
| Grammar.LegacyPseudoElementsAgree | cssselect/parser.py:371 | the single-colon pseudo-elements are `first-line`, `first-letter`, `before` and `after`, matched case-sensitively |
| Grammar.EndsCompound | cssselect/parser.py:342-344 | the tokens that end a compound selector: the end of input, `' '`, `,`, the three combinator characters, and `)` inside a negation |
| Grammar.SimpleSelectorAt | cssselect/parser.py:323-412 | `parse_simple_selector` never moves the stream back, and consumes at least one token when it succeeds; its own contract is only this bound, and what it parses is proved in `SimpleSelectorIsCompound` |
| Grammar.ElementAt | cssselect/parser.py:327-338 | the type selector never moves the stream back; its own contract is only this bound, and what it parses is proved in `SimpleSelectorIsCompound` |
| Grammar.QualifiersAt | cssselect/parser.py:340-412 | the qualifier loop never moves the stream back; success means a token was consumed since `consumed`; its own contract is only this bound, and what it parses is proved in `QualifiersIsCompound` |
| Grammar.QualifierAt | cssselect/parser.py:345-409 | one qualifier consumes at least one token when it succeeds; its own contract is only this bound, and what it parses is proved in `QualifierIsCompound` |
| Grammar.SymbolQualifierAt | cssselect/parser.py:348-368 | `#id`, `.class` or `::name` consumes at least one token when it succeeds; its own contract is only this bound, and what it parses is proved in `SymbolQualifierIsCompound` |
| Grammar.PseudoClassAt | cssselect/parser.py:369-406 | the pseudo-class branch never moves the stream back; its own contract is only this bound, and what it parses is proved in `PseudoClassIsCompound` |
| Grammar.FunctionalPseudoAt | cssselect/parser.py:376-404 | a functional pseudo-class never moves the stream back; its own contract is only this bound, and what it parses is proved in `FunctionalPseudoIsCompound` |
| Grammar.NegationAt | cssselect/parser.py:379-400 | `:not(...)` never moves the stream back; its own contract is only this bound, and what it parses is proved in `NegationIsCompound`, `NestedNegationRejected` and `PseudoElementInNegationRejected` |
| Grammar.FunctionAt | cssselect/parser.py:387-404 | a function argument never moves the stream back; its own contract is only this bound, and what it parses is proved in `FunctionHasArgument` and `FunctionArgumentRequired` |
| Grammar.CloseParenAt | cssselect/parser.py:394-398 | the closing `)` never moves the stream back; its own contract is only this bound, and what it parses is proved in `FunctionNeedsCloseParen` |
| Grammar.AttribQualifierAt | cssselect/parser.py:356-363 | `[...]` never moves the stream back; its own contract is only this bound, and what it parses is proved in `AttribQualifierIsCompound` and `AttributeNeedsCloseBracket` |
| Grammar.AttribAt | cssselect/parser.py:415-440 | `parse_attrib` never moves the stream back; its own contract is only this bound, and what it parses is proved in `AttribIsValid` and `StarAttributeNeedsPipe` |
| Grammar.AttribTestAt | cssselect/parser.py:426-440 | the operator and value part never moves the stream back; its own contract is only this bound, and what it parses is proved in `AttribTestIsValid`, `AttributeOperatorRequired` and `AttributeValueRequired` |
| Grammar.SelectorAt | cssselect/parser.py:300-320 | `parse_selector` consumes at least one token when it succeeds; its own contract is only this bound, and what it parses is proved in `SelectorIsChain` |
| Grammar.CombinatorsAt | cssselect/parser.py:302-319 | the combinator loop never moves the stream back; its own contract is only this bound, and what it parses is proved in `CombinatorsIsChain` |
| Grammar.CombinatorAt | cssselect/parser.py:310-317 | reading a combinator never moves the stream back; its own contract is only this bound, and what it parses is proved in `CombinatorIsKnown` |
| Grammar.GroupAt | cssselect/parser.py:290-298 | `parse_selector_group` never moves the stream back; its own contract is only this bound, and what it parses is proved in `GroupIsComplete` |
| Grammar.GroupLoopAt | cssselect/parser.py:292-298 | the group loop never moves the stream back; its own contract is only this bound, and what it parses is proved in `GroupLoopIsComplete` |
| Grammar.WordEnd | cssselect/parser.py:241 | the end of the maximal `\w` run from `i` |
| Grammar.ElementFastPath | cssselect/parser.py:241-264 | a match of `^\s*(\w+)$` captures a non-empty word of `\w` characters |
| Grammar.QualifiedFastPath | cssselect/parser.py:242-272 | a match of the `#id` / `.class` pattern captures a non-empty name |
| Grammar.SimpleSelectorIsCompound | cssselect/parser.py:323-412 | an accepted compound selector is a type selector with well-formed qualifiers; it holds `:not()` only outside a negation; the stream stops at a token that ends a compound selector |
| Grammar.QualifiersIsCompound | cssselect/parser.py:340-412 | the qualifier loop keeps the compound-selector invariant |
| Grammar.QualifierIsCompound | cssselect/parser.py:345-409 | one qualifier keeps the compound-selector invariant |
| Grammar.SymbolQualifierIsCompound | cssselect/parser.py:348-368 | `#id`, `.class` and `::name` keep the compound-selector invariant |
| Grammar.AttribQualifierIsCompound | cssselect/parser.py:356-363 | `[...]` keeps the compound-selector invariant |
| Grammar.PseudoClassIsCompound | cssselect/parser.py:369-406 | pseudo-classes and legacy pseudo-elements keep the compound-selector invariant |
| Grammar.FunctionalPseudoIsCompound | cssselect/parser.py:376-404 | functional pseudo-classes keep the compound-selector invariant |
| Grammar.NegationIsCompound | cssselect/parser.py:379-400 | `:not()` wraps a compound selector with no negation inside, and is accepted only outside a negation |
| Grammar.FunctionHasArgument | cssselect/parser.py:387-404 | an accepted function carries, as its one argument, the `Symbol` or `String` token after `(` |
| Grammar.AttribIsValid | cssselect/parser.py:415-440 | an accepted attribute selector qualifies the given selector and tests either existence with no value, or one of the seven operators against a `Symbol` or `String` |
| Grammar.AttribTestIsValid | cssselect/parser.py:426-440 | the operator and value part is existence, or a known operator with a symbol or string value |
| Grammar.SelectorIsChain | cssselect/parser.py:300-320 | an accepted selector is a chain of compound selectors joined by the four combinators, and the stream stops at `,` or the end |
| Grammar.NextCompoundAt | cssselect/parser.py:310-319 | one turn of the combinator loop never moves the stream back; `CombinatorsAt` calls it for its tail, and what it parses is proved in `NextCompoundIsChain` |
| Grammar.NextCompoundIsChain | cssselect/parser.py:310-319 | one turn of the loop, and the rest of the loop after it, keeps the chain invariant |
| Grammar.CombinatorsIsChain | cssselect/parser.py:302-319 | the combinator loop keeps the chain invariant |
| Grammar.CombinatorIsKnown | cssselect/parser.py:310-317 | the combinator is `' '`, `+`, `>` or `~` |
| Grammar.GroupIsComplete | cssselect/parser.py:290-298 | an accepted group has at least one selector, each a chain, and consumed every token with no exception pending |
| Grammar.GroupLoopIsComplete | cssselect/parser.py:292-298 | the group loop keeps the selectors parsed so far and adds at least one |
| Grammar.ParsedIsChains | cssselect/parser.py:246-287 | `parse` returns a non-empty list of chains |
| Grammar.Parsed | cssselect/parser.py:246-287 | `parse(css)`; what it returns is proved in `ParsedIsChains`, `ParsedTokenizesCompletely`, `WordFastPath` and `QualifiedFastPaths` |
| Grammar.ParsedTokenizesCompletely | cssselect/parser.py:274-277 | off the fast paths, a successful `parse` means the tokenizer raised nothing, so the tokens can be listed up front |
| Grammar.CompoundNeedsAToken | cssselect/parser.py:408-411 | a compound selector that would consume no token raises the expected-selector error |
| Grammar.QualifierAfterPseudoElement | cssselect/parser.py:345-347 | a qualifier after a pseudo-element is an error |
| Grammar.CombinatorAfterPseudoElement | cssselect/parser.py:307-309 | a combinator after a pseudo-element is an error |
| Grammar.NestedNegationRejected | cssselect/parser.py:379-381 | `:not(` inside `:not()` is the nested-not error |
| Grammar.PseudoElementInNegationRejected | cssselect/parser.py:382-386 | when the argument of `:not(` reaches `::name`, or a single-colon CSS 2.1 pseudo-element, just before `)`, whatever type selector and qualifiers came first, the parser raises the pseudo-element-in-negation error |
| Grammar.PseudoElementEndsArgument | cssselect/parser.py:340-372 | inside a negation the qualifier loop, meeting such a pseudo-element, returns it as the argument's pseudo-element and stops before `)` |
| Grammar.LonePseudoElementInNegation | cssselect/parser.py:382-386 | `:not(::x)` and `:not(:before)` are errors |
| Grammar.TypedPseudoElementInNegation | cssselect/parser.py:382-386 | `:not(a::x)` is an error |
| Grammar.ClassPseudoElementInNegation | cssselect/parser.py:382-386 | `:not(.c::x)` is an error |
| Grammar.StarAttributeNeedsPipe | cssselect/parser.py:418-420 | `[*` not followed by a pipe is an error |
| Grammar.AttributeOperatorRequired | cssselect/parser.py:430-433 | a token other than `]` and the seven operators after the attribute name is the operator-expected error |
| Grammar.AttributeValueRequired | cssselect/parser.py:434-438 | an operator not followed by a `Symbol` or `String` is an error |
| Grammar.AttributeNeedsCloseBracket | cssselect/parser.py:359-362 | an attribute selector not closed by `]` is an error |
| Grammar.FunctionArgumentRequired | cssselect/parser.py:387-393 | a function whose argument is not a `Symbol` or `String` is the expected-argument error |
| Grammar.FunctionNeedsCloseParen | cssselect/parser.py:394-398 | a missing `)` is an error |
| Grammar.SkipSpacesStops | cssselect/parser.py:241-243 | `\s*` from `i` stops at `j` when exactly the characters before `j` are spaces |
| Grammar.WordEndStops | cssselect/parser.py:241-243 | `\w+` from `i` stops at `j` when exactly the characters before `j` are word characters |
| Grammar.WordFastPath | cssselect/parser.py:262-264 | leading whitespace and a word parse as `[Selector(Element('*', word))]` without tokenizing |
| Grammar.QualifiedFastPaths | cssselect/parser.py:265-272 | `tag#id` and `tag.class` (whitespace around them allowed) parse as `Hash` / `Class` over `Element('*', tag or '*')` |
| Grammar.QualifiedFastPathMatches | cssselect/parser.py:242-243 | such an input matches the fast-path pattern with `tag` and the name as its groups |
| Grammar.QualifiedPositions | cssselect/parser.py:242-243 | where the runs of spaces, tag, separator and name lie in such an input |
| Parser.ParseSimpleSelector | cssselect/parser.py:323-412 | the method over a `TokenStream` computes `SimpleSelectorAt` and its stream effect |
| Parser.ParseElement | cssselect/parser.py:327-338 | computes `ElementAt` |
| Parser.ParseQualifier | cssselect/parser.py:345-409 | computes `QualifierAt` |
| Parser.ParseSymbolQualifier | cssselect/parser.py:348-368 | computes `SymbolQualifierAt` |
| Parser.ParsePseudoClass | cssselect/parser.py:369-406 | computes `PseudoClassAt` |
| Parser.ParseFunctionalPseudo | cssselect/parser.py:376-404 | computes `FunctionalPseudoAt` |
| Parser.ParseNegation | cssselect/parser.py:379-400 | computes `NegationAt` |
| Parser.ParseFunction | cssselect/parser.py:387-404 | computes `FunctionAt` |
| Parser.ParseCloseParen | cssselect/parser.py:394-398 | computes `CloseParenAt` |
| Parser.ParseAttribQualifier | cssselect/parser.py:356-363 | computes `AttribQualifierAt` |
| Parser.ParseAttrib | cssselect/parser.py:415-440 | computes `AttribAt` |
| Parser.ParseAttribTest | cssselect/parser.py:426-440 | computes `AttribTestAt` |
| Parser.ParseSelector | cssselect/parser.py:300-320 | the loop over combinators computes `SelectorAt` |
| Parser.ParseSelectorGroup | cssselect/parser.py:290-298 | the loop over commas computes `GroupAt` |
| Parser.Parse | cssselect/parser.py:246-287 | `parse` computes `Parsed`: the fast paths, then tokenizing and parsing, with the handler's peek (after a syntax error, a pending tokenizer exception replaces it) |
| XPath.Conjoin | cssselect/xpath.py:44-48 | the new condition alone when the old one is missing or empty, else `old and (new)` |
| XPath.Bracket | cssselect/xpath.py:36-37 | the bracket text is empty exactly when the condition is missing or empty |
| XPath.Render | cssselect/xpath.py:29-38 | `__str__` in terms of the fields; the builder methods' string equations are stated with it |
| XPath.JoinedPath | cssselect/xpath.py:81-92 | the path `join` takes from `other`, a lone star-slash dropped; used by `XPathExpr.Join` |
| XPath.XPathExpr.ToString | cssselect/xpath.py:29-38 | `__str__` of the current fields |
| XPath.XPathExpr.Repr | cssselect/xpath.py:40-42 | `__repr__`: the class name and the string in brackets |
| XPath.XPathExpr.constructor | cssselect/xpath.py:21-27 | the fields are the arguments, which default to None, None, `*`, None and False |
| XPath.XPathExpr.AddCondition | cssselect/xpath.py:44-48 | the condition becomes the conjunction and nothing else changes; the string is the old string up to the element, then `[conjunction]` |
| XPath.XPathExpr.AddPath | cssselect/xpath.py:50-55 | the element moves onto the end of the path and `part` becomes the element; the string gains `part` just before the bracketed condition |
| XPath.XPathExpr.AddPrefix | cssselect/xpath.py:57-61 | `p` goes in front of a non-empty prefix or replaces it; the new string is `p` + the old string |
| XPath.XPathExpr.AddNameTest | cssselect/xpath.py:63-68 | an element other than `*` becomes `*`, and the condition gains `name() = ` with the element's XPath literal; `*` is left alone |
| XPath.XPathExpr.AddStarPrefix | cssselect/xpath.py:70-79 | the path gains a trailing star-slash (and is created if missing) and the flag is set; prefix, element and condition are unchanged |
| XPath.XPathExpr.Join | cssselect/xpath.py:81-92 | the new string is the old string + `combiner` + `other`'s string; a lone star-slash `other` got from `add_star_prefix` is dropped; this object's flag is kept |
| XPath.AddConditionString | cssselect/xpath.py:29-48 | the string after `add_condition`, in terms of the fields |
| XPath.AddPathString | cssselect/xpath.py:29-55 | the string after `add_path` is the old string with `part` inserted before the condition |
| XPath.AddPrefixString | cssselect/xpath.py:29-61 | the string after `add_prefix(p)` is `p` + the old string |
| XPath.AddStarPrefixString | cssselect/xpath.py:70-79 | the string after `add_star_prefix` gains a star-slash before the element |
| XPath.JoinString | cssselect/xpath.py:81-92 | the string after `join` is the old string, the combiner, and `other`'s string, less the dropped star-slash |
| XPath.XPathExprOr.constructor | cssselect/xpath.py:100-104 | keeps the items and the prefix |
| XPath.Alternatives | cssselect/xpath.py:106-108 | one entry per item, in order, each the prefix followed by the item's string |
| XPath.UnionStrings | cssselect/xpath.py:106-108 | a union of one item is that item behind the prefix; each further item adds the union separator, the prefix and its string |
| XPath.XPathExprOr.ToString | cssselect/xpath.py:106-108 | `__str__`: the prefixed items joined by the union separator; proved in `UnionStrings` |
| XPath.XPathExprOr.Repr | cssselect/xpath.py:40-42 | the inherited `__repr__`, with this class's name |
| XPath.RunEnd | cssselect/xpath.py:110 | the end of the maximal run of apostrophes, or of other characters, from `i` |
| XPath.QuoteRuns | cssselect/xpath.py:110 | `split_at_single_quotes` without its empty strings: non-empty runs, each all apostrophes or free of them |
| XPath.QuoteRunsConcat | cssselect/xpath.py:110 | the runs put back together are the string |
| XPath.QuoteRunsAlternate | cssselect/xpath.py:110 | neighbouring runs alternate between apostrophes and other characters, so the runs are maximal |
| XPath.MixedStringHasTwoRuns | cssselect/xpath.py:122-126 | a string with an apostrophe and some other character has at least two runs |
| XPath.QuotePieces | cssselect/xpath.py:123-126 | each run is quoted on its own: an apostrophe run in double quotes, any other in single quotes |
| XPath.XPathLiteral | cssselect/xpath.py:112-127 | `xpath_literal` always yields at least the two quote characters |
| XPath.PiecesReadBack | cssselect/xpath.py:123-126 | the comma-joined quoted runs read back as exactly those runs |
| XPath.LiteralRoundTrip | cssselect/xpath.py:112-127 | `xpath_literal(s)`, read as an XPath 1.0 expression, evaluates to `s`; a `concat()` always gets the two or more arguments XPath requires |
| XPath.EvalLiteral | cssselect/xpath.py:112-127 | the reference reader of XPath 1.0 string literals and `concat()` calls that `LiteralRoundTrip` is stated against |
| XPath.QuotedRoundTrip | cssselect/xpath.py:118-121 | a value without `'` is wrapped in single quotes; one with `'` but no `"` in double quotes; either way it reads back as the value |
| XPath.ConcatRoundTrip | cssselect/xpath.py:122-126 | a value with both quote characters becomes a `concat()` of two or more quoted runs that reads back as the value |
| XPath.QuotedExamples | tests/test_cssselect.py:596-606 | `'` becomes `"'"`, and `"""` becomes `'"""'` |

## Left out

- The `Translator` and pseudo-class XPath generation: they are not in cssselect/xpath.py, which holds only the builder. `GenericTranslator` is not part of this model.
- `Element._format_element`, called by `parse_series` and `xpath_literal` on an `Element`: it is not defined in the files modelled, so both take plain strings (and ints, for `parse_series`).
- The text of error messages, and their rewriting in `parse`, are not modelled. An error is a reason code. `parse`'s handler is modelled only by its peek, which can raise a pending tokenizer exception. `stream.source` is not modelled.
- `TokenStream.__iter__`: nothing in the modelled code calls it.
- Unicode regular-expression classes are approximations:
  - `\s` is Python's whitespace set;
  - `\w` is ASCII letters, digits and `_`, plus every non-ASCII character that is not whitespace;
  - `\d` is the ASCII digits.
- Python's `int()`: surrounding whitespace, an optional sign and decimal digits are modelled. Underscores between digits and non-ASCII digits are not.
- The `unicode_escape` codec of `tokenize_symbol` is a parameter `decode`, applied only to identifiers holding a backslash and only when a disallowed character follows the identifier. When there is no backslash it is the identity, as the codec is on such text.
- A surrogate code point produced by a hex escape cannot be a Dafny `char`, so it is the error `Unrepresentable` instead of a string.
- Python's `repr()` of a plain string is the parameter `quote` of `Selectors.Repr`, so its escaping rules are not modelled.
- Selectors.ReprShape: states the bracketing and nesting of reprs, not whole concrete repr strings.
- Tokenizer.StripComments: states only that the result is no longer than the input. Two lemmas state what it removes: `StripCommentsNoComment` and `LeadingComment`.
- The token generator raising in the middle of parsing is modelled at the same point, after the tokens before it. Laziness itself (for example, time) is not observable in the model.
- The parser's `peek`s that only format messages are left out.
- The tests in tests/test_cssselect.py target a newer cssselect:
  - IDENT/DELIM tokens, token-list `Function` arguments, and `:is`/`:has`/`:where`;
  - `1n+ 3` as (1, 3), and `n+` as invalid;
  - `add_condition` returning a value.
  Only the specificity and quoting assertions that agree with the code are used.
- XPath.XPathLiteral, XPath.LiteralRoundTrip: no concrete `concat()` output is stated as a string; the concat form is characterised by the round trip and by `QuoteRuns`/`QuotePieces`.
- `XPathExprOr` inherits the builder methods of `XPathExpr` without the fields they use (there is no `__init__` call of the base). Only its constructor, `__str__` and `__repr__` are modelled.
- lxml, which evaluates the generated XPath, is outside the model.

## Findings

| source | as written | input that shows it | evidently intended | confidence | as-written member | corrected member |
|---|---|---|---|---|---|---|
| cssselect/parser.py:143 | `Negation.specificity` reads `self.sub_selector`, but the constructor stores `self.subselector` (line 135), so the call raises `AttributeError` | `parse(':not(foo)')[0].specificity()` | the component-wise sum of the selector's and the argument's specificity, (0, 0, 1) here, as tests/test_cssselect.py:302-307 expect | not executed | Selectors.SpecificityAsWritten | Selectors.Specificity |
