/** Token objects and the errors the tokenizer and parser raise.

    In the source a token is a `str` subclass (`Symbol`, `String` or `Token`)
    carrying a `pos`; every delimiter test in the parser compares the text only,
    whatever the class, and the class matters only where `isinstance` is used. */
module Tokens {
  import opened Wrappers
  import Text

  /** The three token classes: identifiers and `An+B` runs (`Symbol`), quoted
      strings with their quotes removed (`String`), and whitespace and
      delimiters (`Token`). */
  datatype Kind = SymbolKind | StringKind | TokenKind

  datatype Token = Token(kind: Kind, text: string, pos: nat)

  /** Why a `SelectorSyntaxError` was raised; the message text is not modelled. */
  datatype SyntaxReason =
    | UnclosedString          // no closing quote
    | InvalidEscape           // a backslash with nothing after it
    | UnexpectedSymbol        // a character that can start no token
    | BadSymbol               // the `unicode_escape` decode of an identifier failed
    | PseudoElementNotAtEnd
    | NestedNot
    | PseudoElementInNot
    | ExpectedArgument
    | ExpectedCloseParen
    | ExpectedCloseBracket
    | ExpectedPipe
    | OperatorExpected
    | ExpectedStringOrSymbol
    | ExpectedSelector
    | ExpectedSymbol
    | ExpectedSymbolOrStar

  datatype Error =
    | SyntaxError(reason: SyntaxReason)
      /** Python's `chr()` rejects a code point above 0x10FFFF with `ValueError`,
          which is not a `SelectorSyntaxError` and is not caught by `parse`. */
    | ValueError(codePoint: int)
      /** A surrogate code point, which Python's `chr()` accepts but a Dafny
          `char` cannot hold. */
    | Unrepresentable(codePoint: int)

  type Outcome<T> = Result<T, Error>

  /** The `repr()` of a token: `Symbol('foo', 3)`, given Python's `repr()` of a
      plain string as `quote`. */
  function TokenRepr(t: Token, quote: string -> string): string {
    var name := match t.kind
      case SymbolKind => "Symbol"
      case StringKind => "String"
      case TokenKind => "Token";
    name + "(" + quote(t.text) + ", " + Text.NatToString(t.pos) + ")"
  }
}
