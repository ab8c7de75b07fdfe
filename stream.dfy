/** `TokenStream`: a cursor over the tokenizer's output with one token of
    lookahead and a history of the consumed tokens (`used`).

    What a caller can observe of the stream is how many tokens have been
    consumed and whether the tokenizer's exception is still pending: the
    `Cursor`. The functions below give the effect of each operation on a
    `Cursor`; the class methods are proved to have exactly that effect, and
    the parser's specification is written with the functions. */
module Stream {
  import opened Wrappers
  import opened Tokens

  /** `pos` tokens consumed; `failure` is the exception the token generator
      raises after its last token, until it has been raised once. */
  datatype Cursor = Cursor(pos: nat, failure: Option<Error>)

  /** What `peek()` and `next()` return once the tokens are exhausted: the
      pending exception, or `None`. */
  function EndAt(c: Cursor): Outcome<Option<Token>> {
    if c.failure.Some? then Err(c.failure.value) else Ok(None)
  }

  /** `peek()`: the next token, leaving it unconsumed. At the end the pending
      exception is raised once (a generator that has raised is finished). */
  function PeekAt(tokens: seq<Token>, c: Cursor): (r: (Outcome<Option<Token>>, Cursor))
    requires c.pos <= |tokens|
    ensures r.1.pos == c.pos
    ensures r.0 == Ok(None) ==> c.pos == |tokens| && c.failure.None?
    ensures r.0.Err? ==> c.pos == |tokens| && c.failure == Some(r.0.error) && r.1.failure.None?
    ensures r.0.Ok? ==> r.1.failure == c.failure
  {
    if c.pos < |tokens| then (Ok(Some(tokens[c.pos])), c) else (EndAt(c), Cursor(c.pos, None))
  }

  /** `next()`: the next token, consumed; at the end the same as `PeekAt`. */
  function NextAt(tokens: seq<Token>, c: Cursor): (r: (Outcome<Option<Token>>, Cursor))
    requires c.pos <= |tokens|
    ensures r.1.pos <= |tokens|
    ensures r.0.Ok? && r.0.value.Some? <==> r.1.pos == c.pos + 1
    ensures r.0 == PeekAt(tokens, c).0
    ensures r.0.Ok? ==> r.1.failure == c.failure
  {
    if c.pos < |tokens| then (Ok(Some(tokens[c.pos])), Cursor(c.pos + 1, c.failure)) else (EndAt(c), Cursor(c.pos, None))
  }

  /** `next_symbol()`: the next token, consumed, which must be a `Symbol`. */
  function NextSymbolAt(tokens: seq<Token>, c: Cursor): (r: (Outcome<Token>, Cursor))
    requires c.pos <= |tokens|
    ensures r.1.pos <= |tokens|
    ensures r.0.Ok? ==> r.1.pos == c.pos + 1 && r.0.value == tokens[c.pos] && r.0.value.kind == SymbolKind
    ensures r.0.Ok? ==> r.1.failure == c.failure
  {
    var (next, after) := NextAt(tokens, c);
    if next.Err? then (Err(next.error), after)
    else if next.value.None? || next.value.value.kind != SymbolKind then (Err(SyntaxError(ExpectedSymbol)), after)
    else (Ok(next.value.value), after)
  }

  /** `next_symbol_or_star()`: like `NextSymbolAt`, but a token whose text is
      `*` is accepted whatever its class. */
  function NextSymbolOrStarAt(tokens: seq<Token>, c: Cursor): (r: (Outcome<Token>, Cursor))
    requires c.pos <= |tokens|
    ensures r.1.pos <= |tokens|
    ensures r.0.Ok? ==> r.1.failure == c.failure
    ensures r.0.Ok? ==> r.1.pos == c.pos + 1 && r.0.value == tokens[c.pos] &&
                        (r.0.value.text == "*" || r.0.value.kind == SymbolKind)
  {
    var (next, after) := NextAt(tokens, c);
    if next.Err? then (Err(next.error), after)
    else if next.value.None? || (next.value.value.text != "*" && next.value.value.kind != SymbolKind) then
      (Err(SyntaxError(ExpectedSymbolOrStar)), after)
    else (Ok(next.value.value), after)
  }

  /** `skip_whitespace()`: consume the next token when its text is `' '`. */
  function SkipWhitespaceAt(tokens: seq<Token>, c: Cursor): (r: (Status<Error>, Cursor))
    requires c.pos <= |tokens|
    ensures c.pos <= r.1.pos <= c.pos + 1 && r.1.pos <= |tokens|
    ensures r.1.pos == c.pos + 1 <==> c.pos < |tokens| && tokens[c.pos].text == " "
    ensures r.0.Fail? <==> c.pos == |tokens| && c.failure.Some?
    ensures r.0.Pass? ==> r.1.failure == c.failure
  {
    var (peek, after) := PeekAt(tokens, c);
    if peek.Err? then (Fail(peek.error), after)
    else if peek.value.Some? && peek.value.value.text == " " then (Pass, Cursor(after.pos + 1, after.failure))
    else (Pass, after)
  }

  /** `peek` is idempotent, and `next` after a `peek` returns what `peek`
      returned and leaves the stream where a lone `next` would. */
  lemma PeekThenNextAt(tokens: seq<Token>, c: Cursor)
    requires c.pos <= |tokens|
    ensures PeekAt(tokens, PeekAt(tokens, c).1) == PeekAt(tokens, c) || PeekAt(tokens, c).0.Err?
    ensures PeekAt(tokens, c).0.Ok? ==> NextAt(tokens, PeekAt(tokens, c).1) == NextAt(tokens, c)
  {
  }

  class TokenStream {
    /** What the token generator yields, in order. */
    const tokens: seq<Token>
    /** The exception the generator raises once `tokens` is exhausted, if any,
        until it has been raised. */
    var failure: Option<Error>
    /** Every token returned by `Next`, in order. */
    var used: seq<Token>
    var peeked: Option<Token>
    var peeking: bool

    /** Tokens pulled from the generator are `used` plus the peeked one. */
    ghost predicate Valid()
      reads this
    {
      |used| + (if peeking then 1 else 0) <= |tokens| &&
      used == tokens[..|used|] &&
      (peeking ==> peeked == Some(tokens[|used|]))
    }

    /** The observable state of the stream. */
    function State(): (c: Cursor)
      reads this
      requires Valid()
      ensures c.pos <= |tokens| && used == tokens[..c.pos]
    {
      Cursor(|used|, failure)
    }

    constructor (tokens: seq<Token>, failure: Option<Error>)
      ensures Valid() && State() == Cursor(0, failure)
      ensures this.tokens == tokens && used == []
    {
      this.tokens := tokens;
      this.failure := failure;
      used := [];
      peeked := None;
      peeking := false;
    }

    /** `next()`: the next token, appended to `used`; at the end, the pending
        exception once, then `None`, with `used` unchanged. */
    method Next() returns (r: Outcome<Option<Token>>)
      requires Valid()
      modifies this
      ensures Valid() && !peeking
      ensures (r, State()) == NextAt(tokens, old(State()))
      ensures r.Ok? && r.value.Some? ==> used == old(used) + [r.value.value]
      ensures !(r.Ok? && r.value.Some?) ==> used == old(used)
    {
      if peeking {
        peeking := false;
        used := used + [peeked.value];
        return Ok(peeked);
      }
      r := Pull();
      if r.Ok? && r.value.Some? {
        used := used + [r.value.value];
      }
    }

    /** `peek()`: the token `Next` would return, without consuming it. */
    method Peek() returns (r: Outcome<Option<Token>>)
      requires Valid()
      modifies this
      ensures Valid() && used == old(used)
      ensures (r, State()) == PeekAt(tokens, old(State()))
      ensures peeking <==> |used| < |tokens|
    {
      if !peeking {
        var pulled := Pull();
        if pulled.Err? || pulled.value.None? {
          return pulled;
        }
        peeked := pulled.value;
        peeking := true;
      }
      return Ok(peeked);
    }

    /** `next_token()`, the generator's `__next__`: the next unpulled token,
        or the pending exception (raised once), or the end. */
    method Pull() returns (r: Outcome<Option<Token>>)
      requires Valid() && !peeking
      modifies `failure
      ensures (r, State()) == PeekAt(tokens, old(State()))
    {
      if |used| < |tokens| {
        return Ok(Some(tokens[|used|]));
      }
      r := EndAt(State());
      failure := None;
    }

    /** `next_symbol()`: the next token, which must be a `Symbol`. The token is
        consumed even when it is rejected. */
    method NextSymbol() returns (r: Outcome<Token>)
      requires Valid()
      modifies this
      ensures Valid() && !peeking
      ensures (r, State()) == NextSymbolAt(tokens, old(State()))
    {
      var next :- Next();
      if next.None? || next.value.kind != SymbolKind {
        return Err(SyntaxError(ExpectedSymbol));
      }
      return Ok(next.value);
    }

    /** `next_symbol_or_star()`: like `NextSymbol`, but any token whose text is
        `*` is accepted as well. */
    method NextSymbolOrStar() returns (r: Outcome<Token>)
      requires Valid()
      modifies this
      ensures Valid() && !peeking
      ensures (r, State()) == NextSymbolOrStarAt(tokens, old(State()))
    {
      var next :- Next();
      if next.None? || (next.value.text != "*" && next.value.kind != SymbolKind) {
        return Err(SyntaxError(ExpectedSymbolOrStar));
      }
      return Ok(next.value);
    }

    /** `skip_whitespace()`: consume the next token if its text is `' '`
        (whatever its class), and nothing otherwise. */
    method SkipWhitespace() returns (r: Status<Error>)
      requires Valid()
      modifies this
      ensures Valid()
      ensures (r, State()) == SkipWhitespaceAt(tokens, old(State()))
    {
      var peek := Peek();
      if peek.Err? {
        return Fail(peek.error);
      }
      if peek.value.Some? && peek.value.value.text == " " {
        var _ := Next();
      }
      return Pass;
    }
  }

  /** `peek` is idempotent and does not change `used`; the token `next`
      returns after a `peek` is the one `peek` returned, and it is appended
      to `used`. */
  method PeekThenNext(stream: TokenStream) returns (first: Outcome<Option<Token>>, second: Outcome<Option<Token>>, taken: Outcome<Option<Token>>)
    requires stream.Valid() && |stream.used| < |stream.tokens|
    modifies stream
    ensures first == second == taken && first.Ok? && first.value.Some?
    ensures stream.used == old(stream.used) + [first.value.value]
  {
    first := stream.Peek();
    second := stream.Peek();
    taken := stream.Next();
  }
}
