/** The tokenizer of `cssselect/parser.py`: comment removal, the token
    matchers in the order `tokenize` tries them, quoted strings and
    identifiers.

    The source's `tokenize` is a generator that `parse` drains completely
    inside its `try`; here it yields the whole list at once, as the tokens
    produced before the first exception together with that exception. */
module Tokenizer {
  import opened Wrappers
  import opened Text
  import opened Tokens
  import opened Escapes

  // ---- Comments: `re.sub(r'/\*.*?\*/', '', s, flags=re.DOTALL)`.

  predicate OpensComment(s: string, i: nat) {
    i + 1 < |s| && s[i] == '/' && s[i + 1] == '*'
  }

  predicate ClosesComment(s: string, i: nat) {
    i + 1 < |s| && s[i] == '*' && s[i + 1] == '/'
  }

  // Start of the first `*/` at or after `i` (the lazy `.*?`).
  function FindCommentClose(s: string, i: nat): (r: Option<nat>)
    ensures r.Some? ==> i <= r.value && ClosesComment(s, r.value)
    ensures r.Some? ==> forall k | i <= k < r.value :: !ClosesComment(s, k)
    ensures r.None? ==> forall k | i <= k < |s| :: !ClosesComment(s, k)
    decreases |s| - i
  {
    if i + 1 >= |s| then None
    else if ClosesComment(s, i) then Some(i)
    else FindCommentClose(s, i + 1)
  }

  // Comments removed left to right; an unclosed `/*` is kept as text.
  function StripComments(s: string): (r: string)
    ensures |r| <= |s|
    decreases |s|
  {
    if s == [] then []
    else if OpensComment(s, 0) && FindCommentClose(s, 2).Some? then
      StripComments(s[FindCommentClose(s, 2).value + 2..])
    else [s[0]] + StripComments(s[1..])
  }

  /** Text without a comment opener is left as it is. */
  lemma {:induction false} StripCommentsNoComment(s: string)
    requires forall i | 0 <= i < |s| :: !OpensComment(s, i)
    ensures StripComments(s) == s
    decreases |s|
  {
    if s != [] {
      assert !OpensComment(s, 0);
      assert forall i | 0 <= i < |s| - 1 :: OpensComment(s[1..], i) == OpensComment(s, i + 1);
      StripCommentsNoComment(s[1..]);
      assert [s[0]] + s[1..] == s;
    }
  }

  // A leading comment `/*body*/` vanishes, whatever it holds, as long as the
  // body holds no `*/` of its own.
  lemma LeadingComment(body: string, rest: string)
    requires forall k | 0 <= k < |body| :: !ClosesComment(body + "*/", k)
    ensures StripComments("/*" + body + "*/" + rest) == StripComments(rest)
  {
    var s := "/*" + body + "*/" + rest;
    var c := body + "*/";
    assert forall k | 2 <= k < |body| + 2 :: ClosesComment(s, k) == ClosesComment(c, k - 2);
    assert ClosesComment(s, |body| + 2);
    assert OpensComment(s, 0);
    assert FindCommentClose(s, 2) == Some(|body| + 2);
    assert s[|body| + 4..] == rest;
  }

  // ---- `_match_count_number`: `[+-]?\d*n(?:[+-]\d+)?`.

  /** End of the maximal run of decimal digits starting at `i`. */
  function DigitsEnd(s: string, i: nat): (j: nat)
    requires i <= |s|
    ensures i <= j <= |s|
    ensures forall k | i <= k < j :: IsDigit(s[k])
    ensures j == |s| || !IsDigit(s[j])
    decreases |s| - i
  {
    if i < |s| && IsDigit(s[i]) then DigitsEnd(s, i + 1) else i
  }

  predicate IsSign(c: char) { c == '+' || c == '-' }

  /** End of the match at `pos`, if the pattern matches there. The greedy `\d*`
      can only be followed by `n` at its maximal end, so no backtracking is
      needed; the optional tail is taken whenever a sign and a digit follow. */
  function CountNumberEnd(s: string, pos: nat): (r: Option<nat>)
    requires pos <= |s|
    ensures r.Some? ==> pos < r.value <= |s|
    ensures r.Some? ==> forall k | pos <= k < r.value :: IsSign(s[k]) || IsDigit(s[k]) || s[k] == 'n'
  {
    var i := if pos < |s| && IsSign(s[pos]) then pos + 1 else pos;
    var j := DigitsEnd(s, i);
    if j < |s| && s[j] == 'n' then
      if j + 2 < |s| && IsSign(s[j + 1]) && IsDigit(s[j + 2]) then Some(DigitsEnd(s, j + 2))
      else Some(j + 1)
    else None
  }

  // ---- Delimiters.

  const TwoCharOperators: set<string> := {"~=", "|=", "^=", "$=", "*=", "::", "!="}

  /** `c1 + c2 in ('~=', '|=', '^=', '$=', '*=', '::', '!=')`, as a test on the
      two characters. */
  predicate IsTwoCharOperator(c1: char, c2: char) {
    (c2 == '=' && (c1 == '~' || c1 == '|' || c1 == '^' || c1 == '$' || c1 == '*' || c1 == '!'))
    || (c1 == ':' && c2 == ':')
  }

  lemma TwoCharOperatorsAgree(c1: char, c2: char)
    ensures IsTwoCharOperator(c1, c2) <==> [c1, c2] in TwoCharOperators
  {
  }

  const Delimiters: string := ">+~,.*=[]()|:#"

  /** `c in Delimiters`, written out. */
  predicate IsDelimiter(c: char) {
    c == '>' || c == '+' || c == '~' || c == ',' || c == '.' || c == '*' || c == '='
    || c == '[' || c == ']' || c == '(' || c == ')' || c == '|' || c == ':' || c == '#'
  }

  lemma DelimitersAgree(c: char)
    ensures IsDelimiter(c) <==> c in Delimiters
  {
  }

  // ---- Identifiers: `tokenize_symbol`.

  /** Characters `[^\w\\-]` does not match. */
  predicate IsSymbolChar(c: char) { IsWordChar(c) || c == '\\' || c == '-' }

  lemma SymbolCharNotSpace(c: char)
    requires IsSymbolChar(c)
    ensures !IsSpace(c)
  {
  }

  lemma OperatorCharsNotSpace(c1: char, c2: char)
    ensures IsDelimiter(c1) ==> !IsSpace(c1)
    ensures IsTwoCharOperator(c1, c2) ==> !IsSpace(c2)
  {
  }

  /** `_illegal_symbol.search(s, pos)`: the first illegal character at or after `pos`. */
  function IllegalSymbolFrom(s: string, pos: nat): (r: Option<nat>)
    requires pos <= |s|
    ensures r.Some? ==> pos <= r.value < |s| && !IsSymbolChar(s[r.value])
    ensures r.Some? ==> forall k | pos <= k < r.value :: IsSymbolChar(s[k])
    ensures r.None? ==> forall k | pos <= k < |s| :: IsSymbolChar(s[k])
    decreases |s| - pos
  {
    if pos == |s| then None
    else if !IsSymbolChar(s[pos]) then Some(pos)
    else IllegalSymbolFrom(s, pos + 1)
  }

  /** The ASCII `backslashreplace` encoding followed by the `unicode_escape`
      decoding, given as `decode` (`None` when the codec raises). The round trip
      is the identity on text without a backslash, so `decode` is only
      consulted when one is present. */
  function UnicodeEscape(raw: string, decode: string -> Option<string>): (r: Option<string>)
    ensures '\\' !in raw ==> r == Some(raw)
  {
    if '\\' in raw then decode(raw) else Some(raw)
  }

  /** `tokenize_symbol(s, pos)`: the identifier text and the position after it. */
  function TokenizeSymbol(s: string, pos: nat, decode: string -> Option<string>): (r: Outcome<(string, nat)>)
    requires pos <= |s|
    ensures r.Ok? ==> pos <= r.value.1 <= |s|
    ensures r.Ok? ==> forall k | pos <= k < r.value.1 :: IsSymbolChar(s[k])
    ensures r.Ok? ==> r.value.1 == |s| || !IsSymbolChar(s[r.value.1])
    ensures r.Ok? && '\\' !in s[pos..r.value.1] ==> r.value.0 == s[pos..r.value.1]
    ensures pos < |s| ==> (!IsSymbolChar(s[pos]) <==> r == Err(SyntaxError(UnexpectedSymbol)))
    ensures r.Err? ==> r.error == SyntaxError(UnexpectedSymbol) || r.error == SyntaxError(BadSymbol)
  {
    match IllegalSymbolFrom(s, pos)
    // The identifier runs to the end of the input and is returned undecoded.
    case None => Ok((s[pos..], |s|))
    case Some(end) =>
      if end == pos then Err(SyntaxError(UnexpectedSymbol))
      else
        match UnicodeEscape(s[pos..end], decode)
        case None => Err(SyntaxError(BadSymbol))
        case Some(text) => Ok((text, end))
  }

  // ---- Quoted strings: `tokenize_escaped_string`.

  /** The quote at `k` ends a string whose content starts at `start`: the
      content before it does not end with a backslash. */
  predicate Closes(s: string, quote: char, start: nat, k: nat) {
    start <= k < |s| && s[k] == quote && (k == start || s[k - 1] != '\\')
  }

  /** The first closing quote at or after `pos`, found by jumping from quote to
      quote as the source's loop does. */
  function FindClosingQuote(s: string, quote: char, start: nat, pos: nat): (r: Option<nat>)
    requires start <= pos <= |s|
    ensures r.Some? ==> pos <= r.value && Closes(s, quote, start, r.value)
    ensures r.Some? ==> forall k | pos <= k < r.value :: !Closes(s, quote, start, k)
    ensures r.None? ==> forall k | pos <= k < |s| :: !Closes(s, quote, start, k)
    decreases |s| - pos
  {
    match IndexOfFrom(s, quote, pos)
    case None => None
    case Some(next) =>
      if next > start && s[next - 1] == '\\' then FindClosingQuote(s, quote, start, next + 1)
      else Some(next)
  }

  /** No quote in `[from, to)` closes a string whose content starts at `start`. */
  predicate NoCloseBetween(s: string, quote: char, start: nat, from: nat, to: nat) {
    forall k | from <= k < to :: !Closes(s, quote, start, k)
  }

  predicate IsQuote(c: char) { c == '"' || c == '\'' }

  lemma QuoteNotSpace(c: char)
    requires IsQuote(c)
    ensures !IsSpace(c)
  {
  }

  /** `tokenize_escaped_string(s, pos)`: the string's value and the position
      just after its closing quote. */
  function EscapedString(s: string, pos: nat): (r: Outcome<(string, nat)>)
    requires pos < |s| && IsQuote(s[pos])
    ensures r.Ok? ==> pos + 2 <= r.value.1 <= |s| && Closes(s, s[pos], pos + 1, r.value.1 - 1)
    ensures r.Ok? ==> NoCloseBetween(s, s[pos], pos + 1, pos + 1, r.value.1 - 1)
    ensures r.Ok? && '\\' !in s[pos + 1..r.value.1 - 1] ==> r.value.0 == s[pos + 1..r.value.1 - 1]
    ensures r == Err(SyntaxError(UnclosedString)) <==> NoCloseBetween(s, s[pos], pos + 1, pos + 1, |s|)
  {
    match FindClosingQuote(s, s[pos], pos + 1, pos + 1)
    case None => Err(SyntaxError(UnclosedString))
    case Some(next) =>
      var raw := s[pos + 1..next];
      if '\\' in raw then
        var text :- Unescape(raw);
        Ok((text, next + 1))
      else Ok((raw, next + 1))
  }

  /** The imperative `tokenize_escaped_string`: scan for the closing quote,
      then unescape the content when it holds a backslash. */
  method TokenizeEscapedString(s: string, pos: nat) returns (r: Outcome<(string, nat)>)
    requires pos < |s| && IsQuote(s[pos])
    ensures r == EscapedString(s, pos)
  {
    var start := pos + 1;
    var close := ScanForClose(s, s[pos], start);
    if close.None? {
      r := Err(SyntaxError(UnclosedString));
    } else {
      var end: nat := close.value + 1;
      var result := s[start..close.value];
      if '\\' in result {
        var u := UnescapeStringLiteral(result);
        if u.Err? {
          r := Err(u.error);
        } else {
          r := Ok((u.value, end));
        }
      } else {
        r := Ok((result, end));
      }
    }
  }

  /** The `while 1` loop of `tokenize_escaped_string`: advance `p` from quote to
      quote until one is not preceded by a backslash. */
  method ScanForClose(s: string, quote: char, start: nat) returns (close: Option<nat>)
    requires start <= |s|
    ensures close == FindClosingQuote(s, quote, start, start)
  {
    var p := start;
    close := None;
    var searching := true;
    while searching
      invariant start <= p <= |s|
      invariant searching ==> close.None? && FindClosingQuote(s, quote, start, p) == FindClosingQuote(s, quote, start, start)
      invariant !searching ==> close == FindClosingQuote(s, quote, start, start)
      decreases |s| - p, searching
    {
      var next := IndexOfFrom(s, quote, p);
      if next.None? {
        searching := false;
      } else if next.value > start && s[next.value - 1] == '\\' {
        // The content so far ends in a backslash: the quote is escaped.
        p := next.value + 1;
      } else {
        close := next;
        searching := false;
      }
    }
  }

  // ---- One step of `tokenize` and the whole token list.

  lemma CountNumberNotSpace(s: string, pos: nat)
    requires pos <= |s| && CountNumberEnd(s, pos).Some?
    ensures !IsSpace(s[CountNumberEnd(s, pos).value - 1])
  {
    var e := CountNumberEnd(s, pos).value;
    assert IsSign(s[e - 1]) || IsDigit(s[e - 1]) || s[e - 1] == 'n';
  }

  /** The text `[+-]?\d*n(?:[+-]\d+)?` describes, read off the pattern: an
      optionally signed digit run, an `n`, and optionally a sign and at least
      one digit. */
  predicate IsCountNumber(t: string) {
    exists k | 0 <= k < |t| && t[k] == 'n' ::
      (AllDigits(t[..k]) || (IsSign(t[0]) && AllDigits(t[1..k]))) &&
      (k + 1 == |t| || (|t| >= k + 3 && IsSign(t[k + 1]) && AllDigits(t[k + 2..])))
  }

  /** What `CountNumberEnd` finds is a match of the pattern. */
  lemma CountNumberMatches(s: string, pos: nat)
    requires pos <= |s| && CountNumberEnd(s, pos).Some?
    ensures IsCountNumber(s[pos..CountNumberEnd(s, pos).value])
  {
    var e := CountNumberEnd(s, pos).value;
    var signed := pos < |s| && IsSign(s[pos]);
    var i := if signed then pos + 1 else pos;
    var j := DigitsEnd(s, i);
    var t := s[pos..e];
    assert forall m | 0 <= m < |t| :: t[m] == s[pos + m];
    if e > j + 1 {
      assert e == DigitsEnd(s, j + 2) && IsDigit(s[j + 2]);
    }
    CountNumberShape(t, j - pos, signed);
  }

  /** A sign or not, digits, an `n`, and nothing or a sign and digits. */
  lemma CountNumberShape(t: string, k: nat, signed: bool)
    requires k < |t| && t[k] == 'n'
    requires signed ==> k >= 1 && IsSign(t[0]) && forall m | 1 <= m < k :: IsDigit(t[m])
    requires !signed ==> forall m | 0 <= m < k :: IsDigit(t[m])
    requires k + 1 == |t| || (|t| >= k + 3 && IsSign(t[k + 1]) && forall m | k + 2 <= m < |t| :: IsDigit(t[m]))
    ensures IsCountNumber(t)
  {
    if signed {
      DigitRun(t, 1, k);
    } else {
      DigitRun(t, 0, k);
      assert t[..k] == t[0..k];
    }
    if k + 1 < |t| {
      DigitRun(t, k + 2, |t|);
      assert t[k + 2..] == t[k + 2..|t|];
    }
  }

  lemma DigitRun(s: string, i: nat, j: nat)
    requires i <= j <= |s| && forall k | i <= k < j :: IsDigit(s[k])
    ensures AllDigits(s[i..j])
  {
    assert forall k | 0 <= k < j - i :: s[i..j][k] == s[i + k];
  }

  /** Such a run, other than a bare `n`, is one `Symbol` token holding the
      matched text. */
  lemma CountNumberToken(s: string, pos: nat, decode: string -> Option<string>)
    requires pos < |s| && CountNumberEnd(s, pos).Some?
    requires !(CountNumberEnd(s, pos).value == pos + 1 && s[pos] == 'n')
    ensures var e := CountNumberEnd(s, pos).value;
            IsCountNumber(s[pos..e]) && NextToken(s, pos, decode) == Ok((Token(SymbolKind, s[pos..e], pos), e))
  {
    CountNumberMatches(s, pos);
    var e := CountNumberEnd(s, pos).value;
    assert IsSign(s[pos]) || IsDigit(s[pos]) || s[pos] == 'n';
  }

  predicate IsWhitespaceToken(t: Token) { t.kind == TokenKind && t.text == " " }

  /** A quoted string or, failing every other matcher, an identifier. */
  function StringOrSymbol(s: string, pos: nat, decode: string -> Option<string>): (r: Outcome<(Token, nat)>)
    requires pos < |s| && !IsSpace(s[pos])
    ensures r.Ok? ==> pos < r.value.1 <= |s| && r.value.0.pos == pos && r.value.0.kind != TokenKind
    ensures r.Ok? ==> !IsSpace(s[r.value.1 - 1])
  {
    if IsQuote(s[pos]) then
      var quoted := EscapedString(s, pos);
      if quoted.Err? then Err(quoted.error)
      else
        QuoteNotSpace(s[quoted.value.1 - 1]);
        Ok((Token(StringKind, quoted.value.0, pos), quoted.value.1))
    else
      var symbol := TokenizeSymbol(s, pos, decode);
      if symbol.Err? then Err(symbol.error)
      else
        SymbolCharNotSpace(s[symbol.value.1 - 1]);
        Ok((Token(SymbolKind, symbol.value.0, pos), symbol.value.1))
  }

  /** The matchers tried before strings and identifiers: an `An+B` run, a
      two-character operator or a one-character delimiter. */
  function OperatorToken(s: string, pos: nat): (r: Option<(Token, nat)>)
    requires pos < |s| && !IsSpace(s[pos])
    ensures r.Some? ==> pos < r.value.1 <= |s| && r.value.0.pos == pos && !IsWhitespaceToken(r.value.0)
    ensures r.Some? ==> !IsSpace(s[r.value.1 - 1])
  {
    var count := CountNumberEnd(s, pos);
    // The match is the bare `n` exactly when it is one character long and that is `n`.
    if count.Some? && !(count.value == pos + 1 && s[pos] == 'n') then
      CountNumberNotSpace(s, pos);
      assert s[pos..count.value][0] == s[pos];
      Some((Token(SymbolKind, s[pos..count.value], pos), count.value))
    else if pos + 1 < |s| && IsTwoCharOperator(s[pos], s[pos + 1]) then
      OperatorCharsNotSpace(s[pos], s[pos + 1]);
      Some((Token(TokenKind, s[pos..pos + 2], pos), pos + 2))
    else if IsDelimiter(s[pos]) then
      OperatorCharsNotSpace(s[pos], s[pos]);
      Some((Token(TokenKind, [s[pos]], pos), pos + 1))
    else None
  }

  /** A token that does not start with whitespace: an `An+B` run, a
      two-character operator, a one-character delimiter, a string or an
      identifier, tried in that order. */
  function OtherToken(s: string, pos: nat, decode: string -> Option<string>): (r: Outcome<(Token, nat)>)
    requires pos < |s| && !IsSpace(s[pos])
    ensures r.Ok? ==> pos < r.value.1 <= |s| && r.value.0.pos == pos && !IsWhitespaceToken(r.value.0)
    ensures r.Ok? ==> !IsSpace(s[r.value.1 - 1])
  {
    var operator := OperatorToken(s, pos);
    if operator.Some? then Ok(operator.value) else StringOrSymbol(s, pos, decode)
  }

  /** The token that starts at `pos`, tried in the source's order, and the
      position after it. */
  function NextToken(s: string, pos: nat, decode: string -> Option<string>): (r: Outcome<(Token, nat)>)
    requires pos < |s|
    ensures r.Ok? ==> pos < r.value.1 <= |s| && r.value.0.pos == pos
  {
    if IsSpace(s[pos]) then Ok((Token(TokenKind, " ", pos), SkipSpaces(s, pos)))
    else OtherToken(s, pos, decode)
  }

  /** A whitespace run gives exactly one `' '` token and is consumed whole; any
      other token is not a `' '` token and ends with a character that is not
      whitespace. */
  lemma NextTokenWhitespace(s: string, pos: nat, decode: string -> Option<string>)
    requires pos < |s|
    ensures IsSpace(s[pos]) ==> NextToken(s, pos, decode) == Ok((Token(TokenKind, " ", pos), SkipSpaces(s, pos)))
    ensures var r := NextToken(s, pos, decode);
      r.Ok? && IsWhitespaceToken(r.value.0) ==> IsSpace(s[pos])
    ensures var r := NextToken(s, pos, decode);
      r.Ok? && !IsSpace(s[pos]) ==> !IsSpace(s[r.value.1 - 1])
  {
    if !IsSpace(s[pos]) {
      assert NextToken(s, pos, decode) == OtherToken(s, pos, decode);
    }
  }

  /** The tokens from `pos` on, and the exception that ended them, if any. */
  function TokenizeFrom(s: string, pos: nat, decode: string -> Option<string>): (r: (seq<Token>, Option<Error>))
    requires pos <= |s|
    ensures forall i | 0 <= i < |r.0| :: pos <= r.0[i].pos < |s|
    ensures |r.0| > 0 ==> r.0[0].pos == pos
    decreases |s| - pos
  {
    if pos == |s| then ([], None)
    else match NextToken(s, pos, decode)
      case Err(e) => ([], Some(e))
      case Ok((t, end)) =>
        var rest := TokenizeFrom(s, end, decode);
        ([t] + rest.0, rest.1)
  }

  /** `list(tokenize(css))`, as tokens and the exception raised after them. */
  function Tokenized(css: string, decode: string -> Option<string>): (r: (seq<Token>, Option<Error>))
    ensures forall i | 0 <= i < |r.0| :: r.0[i].pos < |StripComments(css)|
  {
    TokenizeFrom(StripComments(css), 0, decode)
  }

  /** One unfolding of `TokenizeFrom` after a successful step. */
  lemma TokenizeStep(s: string, pos: nat, decode: string -> Option<string>)
    requires pos < |s| && NextToken(s, pos, decode).Ok?
    ensures TokenizeFrom(s, pos, decode).0 ==
      [NextToken(s, pos, decode).value.0] + TokenizeFrom(s, NextToken(s, pos, decode).value.1, decode).0
  {
  }

  /** The loop invariant of `Tokenize` carried across one successful step. */
  lemma TokenizeAppend(s: string, pos: nat, decode: string -> Option<string>, tokens: seq<Token>)
    requires pos < |s| && NextToken(s, pos, decode).Ok?
    ensures tokens + TokenizeFrom(s, pos, decode).0 ==
      (tokens + [NextToken(s, pos, decode).value.0]) + TokenizeFrom(s, NextToken(s, pos, decode).value.1, decode).0
    ensures TokenizeFrom(s, pos, decode).1 == TokenizeFrom(s, NextToken(s, pos, decode).value.1, decode).1
  {
    TokenizeStep(s, pos, decode);
  }

  /** `TokenizeFrom` after a failed step: no tokens, and that exception. */
  lemma TokenizeStepErr(s: string, pos: nat, decode: string -> Option<string>)
    requires pos < |s| && NextToken(s, pos, decode).Err?
    ensures TokenizeFrom(s, pos, decode) == ([], Some(NextToken(s, pos, decode).error))
  {
  }

  /** The imperative `tokenize`: a loop advancing `pos` through the
      comment-stripped input, trying the matchers in order. */
  method Tokenize(css: string, decode: string -> Option<string>) returns (tokens: seq<Token>, failure: Option<Error>)
    ensures (tokens, failure) == Tokenized(css, decode)
  {
    var s := StripComments(css);
    var pos: nat := 0;
    tokens := [];
    while pos < |s|
      invariant pos <= |s|
      invariant tokens + TokenizeFrom(s, pos, decode).0 == TokenizeFrom(s, 0, decode).0
      invariant TokenizeFrom(s, pos, decode).1 == TokenizeFrom(s, 0, decode).1
      decreases |s| - pos
    {
      var next := MatchAt(s, pos, decode);
      if next.Err? {
        TokenizeStepErr(s, pos, decode);
        assert tokens + [] == tokens;
        return tokens, Some(next.error);
      }
      TokenizeAppend(s, pos, decode, tokens);
      tokens := tokens + [next.value.0];
      pos := next.value.1;
    }
    assert tokens + [] == tokens;
    failure := None;
  }

  /** One turn of the loop of `tokenize`: the matchers tried in order at `pos`. */
  method MatchAt(s: string, pos: nat, decode: string -> Option<string>) returns (r: Outcome<(Token, nat)>)
    requires pos < |s|
    ensures r == NextToken(s, pos, decode)
  {
    if IsSpace(s[pos]) {
      return Ok((Token(TokenKind, " ", pos), SkipSpaces(s, pos)));
    }
    var count := CountNumberEnd(s, pos);
    if count.Some? && !(count.value == pos + 1 && s[pos] == 'n') {
      r := Ok((Token(SymbolKind, s[pos..count.value], pos), count.value));
    } else if pos + 1 < |s| && IsTwoCharOperator(s[pos], s[pos + 1]) {
      r := Ok((Token(TokenKind, s[pos..pos + 2], pos), pos + 2));
    } else if IsDelimiter(s[pos]) {
      r := Ok((Token(TokenKind, [s[pos]], pos), pos + 1));
    } else if IsQuote(s[pos]) {
      var quoted := TokenizeEscapedString(s, pos);
      if quoted.Err? {
        r := Err(quoted.error);
      } else {
        r := Ok((Token(StringKind, quoted.value.0, pos), quoted.value.1));
      }
    } else {
      var symbol := TokenizeSymbol(s, pos, decode);
      if symbol.Err? {
        r := Err(symbol.error);
      } else {
        r := Ok((Token(SymbolKind, symbol.value.0, pos), symbol.value.1));
      }
    }
  }

  // ---- Properties of the token list.

  /** Token offsets strictly increase. */
  lemma {:induction false} OffsetsIncrease(s: string, pos: nat, decode: string -> Option<string>)
    requires pos <= |s|
    ensures var ts := TokenizeFrom(s, pos, decode).0;
      forall i, j | 0 <= i < j < |ts| :: ts[i].pos < ts[j].pos
    decreases |s| - pos
  {
    if pos < |s| && NextToken(s, pos, decode).Ok? {
      var t := NextToken(s, pos, decode).value.0;
      var end := NextToken(s, pos, decode).value.1;
      OffsetsIncrease(s, end, decode);
      TokenizeStep(s, pos, decode);
      var ts := TokenizeFrom(s, pos, decode).0;
      var rest := TokenizeFrom(s, end, decode).0;
      assert ts == [t] + rest;
      assert forall i | 1 <= i < |ts| :: ts[i] == rest[i - 1] && ts[i].pos >= end;
      assert forall i, j | 0 <= i < j < |ts| :: ts[i].pos < ts[j].pos by {
        forall i, j | 0 <= i < j < |ts|
          ensures ts[i].pos < ts[j].pos
        {
          if i > 0 {
            assert ts[i] == rest[i - 1] && ts[j] == rest[j - 1];
          }
        }
      }
    }
  }

  /** `p` does not fall strictly inside a run of whitespace. */
  predicate RunBoundary(s: string, p: nat) {
    p == 0 || p >= |s| || !IsSpace(s[p - 1]) || !IsSpace(s[p])
  }

  /** Whitespace tokens stand exactly for the maximal whitespace runs: a token
      is a `' '` token iff its first character is whitespace, and then it sits
      at the first character of its run, the run reaches exactly to the next
      token, and that token is not a whitespace token. */
  predicate WhitespaceTokensAreRuns(s: string, ts: seq<Token>) {
    PositionsIn(s, ts) && RunStarts(s, ts) && RunsReachNext(s, ts)
  }

  predicate PositionsIn(s: string, ts: seq<Token>) {
    forall i | 0 <= i < |ts| :: ts[i].pos < |s|
  }

  predicate RunStarts(s: string, ts: seq<Token>)
    requires PositionsIn(s, ts)
  {
    forall i | 0 <= i < |ts| ::
      (IsWhitespaceToken(ts[i]) <==> IsSpace(s[ts[i].pos])) &&
      (IsWhitespaceToken(ts[i]) ==> ts[i].pos == 0 || !IsSpace(s[ts[i].pos - 1]))
  }

  predicate RunsReachNext(s: string, ts: seq<Token>)
    requires PositionsIn(s, ts)
  {
    forall i | 0 <= i < |ts| - 1 && IsWhitespaceToken(ts[i]) ::
      ts[i + 1].pos == SkipSpaces(s, ts[i].pos) && !IsWhitespaceToken(ts[i + 1])
  }

  /** The whitespace-run property extends to one more token in front, when
      that token starts at a run boundary, is a `' '` token exactly when it
      starts with whitespace, and ends where the next token begins. */
  lemma WhitespaceRunsStep(s: string, t: Token, end: nat, rest: seq<Token>)
    requires t.pos < end <= |s| && RunBoundary(s, t.pos)
    requires IsWhitespaceToken(t) <==> IsSpace(s[t.pos])
    requires IsSpace(s[t.pos]) ==> end == SkipSpaces(s, t.pos)
    requires |rest| > 0 ==> rest[0].pos == end
    requires WhitespaceTokensAreRuns(s, rest)
    ensures WhitespaceTokensAreRuns(s, [t] + rest)
  {
    PositionsStep(s, t, rest);
    RunStartsStep(s, t, rest);
    RunsReachStep(s, t, end, rest);
  }

  lemma PositionsStep(s: string, t: Token, rest: seq<Token>)
    requires t.pos < |s| && PositionsIn(s, rest)
    ensures PositionsIn(s, [t] + rest)
  {
    assert forall i | 1 <= i < |rest| + 1 :: ([t] + rest)[i] == rest[i - 1];
  }

  lemma RunStartsStep(s: string, t: Token, rest: seq<Token>)
    requires t.pos < |s| && RunBoundary(s, t.pos)
    requires IsWhitespaceToken(t) <==> IsSpace(s[t.pos])
    requires PositionsIn(s, rest) && RunStarts(s, rest)
    requires PositionsIn(s, [t] + rest)
    ensures RunStarts(s, [t] + rest)
  {
    var ts := [t] + rest;
    assert forall i | 1 <= i < |ts| :: ts[i] == rest[i - 1];
  }

  lemma RunsReachStep(s: string, t: Token, end: nat, rest: seq<Token>)
    requires t.pos < end <= |s|
    requires IsWhitespaceToken(t) ==> IsSpace(s[t.pos]) && end == SkipSpaces(s, t.pos)
    requires |rest| > 0 ==> rest[0].pos == end
    requires PositionsIn(s, rest) && RunStarts(s, rest) && RunsReachNext(s, rest)
    requires PositionsIn(s, [t] + rest)
    ensures RunsReachNext(s, [t] + rest)
  {
    var ts := [t] + rest;
    assert forall i | 1 <= i < |ts| :: ts[i] == rest[i - 1];
    if |rest| > 0 && IsWhitespaceToken(t) {
      assert end < |s| && !IsSpace(s[end]);
      assert !IsWhitespaceToken(rest[0]);
    }
  }

  lemma {:induction false} WhitespaceRuns(s: string, pos: nat, decode: string -> Option<string>)
    requires pos <= |s| && RunBoundary(s, pos)
    ensures WhitespaceTokensAreRuns(s, TokenizeFrom(s, pos, decode).0)
    decreases |s| - pos
  {
    if pos < |s| && NextToken(s, pos, decode).Ok? {
      var end := NextToken(s, pos, decode).value.1;
      NextTokenEndsAtBoundary(s, pos, decode);
      WhitespaceRuns(s, end, decode);
      WhitespaceRunsAt(s, pos, decode);
    }
  }

  /** Every token ends where a whitespace run cannot continue. */
  lemma NextTokenEndsAtBoundary(s: string, pos: nat, decode: string -> Option<string>)
    requires pos < |s| && NextToken(s, pos, decode).Ok?
    ensures RunBoundary(s, NextToken(s, pos, decode).value.1)
  {
    NextTokenWhitespace(s, pos, decode);
  }

  lemma WhitespaceRunsAt(s: string, pos: nat, decode: string -> Option<string>)
    requires pos < |s| && NextToken(s, pos, decode).Ok? && RunBoundary(s, pos)
    requires WhitespaceTokensAreRuns(s, TokenizeFrom(s, NextToken(s, pos, decode).value.1, decode).0)
    ensures WhitespaceTokensAreRuns(s, TokenizeFrom(s, pos, decode).0)
  {
    var t := NextToken(s, pos, decode).value.0;
    var end := NextToken(s, pos, decode).value.1;
    NextTokenWhitespace(s, pos, decode);
    TokenizeStep(s, pos, decode);
    WhitespaceRunsStep(s, t, end, TokenizeFrom(s, end, decode).0);
  }

  /** The same for the whole input. */
  lemma WhitespaceRunsTokenized(css: string, decode: string -> Option<string>)
    ensures WhitespaceTokensAreRuns(StripComments(css), Tokenized(css, decode).0)
  {
    WhitespaceRuns(StripComments(css), 0, decode);
  }

  /** Two-character operators are matched before one-character delimiters:
      `*=` is one token, not `*` then `=`. */
  lemma TwoCharOperatorFirst(s: string, pos: nat, decode: string -> Option<string>)
    requires pos + 1 < |s| && IsTwoCharOperator(s[pos], s[pos + 1])
    ensures NextToken(s, pos, decode) == Ok((Token(TokenKind, s[pos..pos + 2], pos), pos + 2))
  {
    assert !IsSpace(s[pos]) && !IsSign(s[pos]) && !IsDigit(s[pos]) && s[pos] != 'n';
    assert DigitsEnd(s, pos) == pos;
  }

  /** A character that can start no token is a syntax error (`!` alone, say). */
  lemma UnexpectedCharacter(s: string, pos: nat, decode: string -> Option<string>)
    requires pos < |s|
    requires !IsSpace(s[pos]) && !IsSymbolChar(s[pos]) && !IsDelimiter(s[pos]) && !IsQuote(s[pos])
    requires !(pos + 1 < |s| && IsTwoCharOperator(s[pos], s[pos + 1]))
    ensures NextToken(s, pos, decode) == Err(SyntaxError(UnexpectedSymbol))
  {
    assert !IsSign(s[pos]) && !IsDigit(s[pos]) && s[pos] != 'n';
    assert DigitsEnd(s, pos) == pos;
  }

  lemma ExclamationMark(decode: string -> Option<string>)
    ensures Tokenized("!", decode) == ([], Some(SyntaxError(UnexpectedSymbol)))
  {
    assert StripComments("!") == "!";
    UnexpectedCharacter("!", 0, decode);
  }

  /** A quote with no closing quote after it is a syntax error. */
  lemma UnclosedQuote(s: string, pos: nat, decode: string -> Option<string>)
    requires pos < |s| && IsQuote(s[pos])
    requires NoCloseBetween(s, s[pos], pos + 1, pos + 1, |s|)
    ensures NextToken(s, pos, decode) == Err(SyntaxError(UnclosedString))
  {
    assert DigitsEnd(s, pos) == pos;
  }

  /** A quoted string with no backslash and no quote of its own becomes a
      `String` token holding the text between the quotes. */
  lemma QuotedString(s: string, pos: nat, content: string, decode: string -> Option<string>)
    requires pos + |content| + 1 < |s| && IsQuote(s[pos])
    requires s[pos + 1..pos + 1 + |content|] == content && s[pos + 1 + |content|] == s[pos]
    requires '\\' !in content && s[pos] !in content
    ensures NextToken(s, pos, decode) == Ok((Token(StringKind, content, pos), pos + |content| + 2))
  {
    QuotedStringCloses(s, pos, content);
    assert s[pos + 1..pos + 1 + |content|] == content;
    QuoteStartsString(s, pos, decode);
  }

  /** At a quote the only matcher that applies is the string one. */
  lemma QuoteStartsString(s: string, pos: nat, decode: string -> Option<string>)
    requires pos < |s| && IsQuote(s[pos])
    ensures NextToken(s, pos, decode) == StringOrSymbol(s, pos, decode)
  {
    var c := s[pos];
    assert !IsSpace(c) && !IsSign(c) && !IsDigit(c) && c != 'n' && !IsDelimiter(c);
    assert !(pos + 1 < |s| && IsTwoCharOperator(c, s[pos + 1]));
    assert DigitsEnd(s, pos) == pos;
    assert CountNumberEnd(s, pos).None?;
    assert OperatorToken(s, pos).None?;
  }

  lemma QuotedStringCloses(s: string, pos: nat, content: string)
    requires pos + |content| + 1 < |s| && IsQuote(s[pos])
    requires s[pos + 1..pos + 1 + |content|] == content && s[pos + 1 + |content|] == s[pos]
    requires '\\' !in content && s[pos] !in content
    ensures FindClosingQuote(s, s[pos], pos + 1, pos + 1) == Some(pos + 1 + |content|)
  {
    var close := pos + 1 + |content|;
    assert forall k | pos + 1 <= k < close :: s[k] == content[k - pos - 1];
    assert NoCloseBetween(s, s[pos], pos + 1, pos + 1, close);
    assert Closes(s, s[pos], pos + 1, close) by {
      if close > pos + 1 {
        assert s[close - 1] == content[|content| - 1];
      }
    }
  }
}
