/** Backslash escapes inside quoted strings: the `split_at_string_escapes`
    regular expression, `unescape_string_literal`, and the escape sequence that
    denotes a code point (`\` + up to six hexadecimal digits + an optional
    whitespace character or CRLF). */
module Escapes {
  import opened Wrappers
  import opened Text
  import opened Tokens

  /** First backslash at or after `i` that has a character after it: the first
      position where `\\(?:...)` can match, since both alternatives consume
      exactly one more character at least. */
  function FirstEscape(lit: string, i: nat): (r: Option<nat>)
    requires i <= |lit|
    ensures r.Some? ==> i <= r.value && r.value + 1 < |lit| && lit[r.value] == '\\'
    ensures r.Some? ==> forall k | i <= k < r.value :: !(lit[k] == '\\' && k + 1 < |lit|)
    ensures r.None? ==> forall k | i <= k < |lit| :: !(lit[k] == '\\' && k + 1 < |lit|)
    decreases |lit| - i
  {
    if i + 1 >= |lit| then None
    else if lit[i] == '\\' then Some(i)
    else FirstEscape(lit, i + 1)
  }

  /** End of a greedy run of at most `n` hexadecimal digits starting at `i`. */
  function HexRunEnd(s: string, i: nat, n: nat): (j: nat)
    requires i <= |s|
    ensures i <= j <= |s| && j <= i + n
    ensures forall k | i <= k < j :: IsHexDigit(s[k])
    ensures j < i + n ==> j == |s| || !IsHexDigit(s[j])
    decreases n
  {
    if n == 0 || i == |s| || !IsHexDigit(s[i]) then i else HexRunEnd(s, i + 1, n - 1)
  }

  /** End of the escape that starts with the backslash at `i`: either 1-6 hex
      digits followed, greedily, by CRLF or else one whitespace character, or
      exactly one other character. */
  function EscapeEnd(lit: string, i: nat): (e: nat)
    requires i + 1 < |lit| && lit[i] == '\\'
    ensures i + 2 <= e <= |lit|
  {
    if IsHexDigit(lit[i + 1]) then
      var j := HexRunEnd(lit, i + 1, 6);
      if j + 1 < |lit| && lit[j] == '\r' && lit[j + 1] == '\n' then j + 2
      else if j < |lit| && IsSpace(lit[j]) then j + 1
      else j
    else i + 2
  }

  /** `re.split` with the capturing escape pattern: text and escapes
      alternately, starting and ending with a (possibly empty) text piece. */
  function SplitEscapes(lit: string): (parts: seq<string>)
    ensures |parts| % 2 == 1
    decreases |lit|
  {
    match FirstEscape(lit, 0)
    case None => [lit]
    case Some(i) =>
      var e := EscapeEnd(lit, i);
      [lit[..i], lit[i..e]] + SplitEscapes(lit[e..])
  }

  /** The split loses and adds nothing: its pieces join back to the literal. */
  lemma {:induction false} SplitEscapesConcat(lit: string)
    ensures Concat(SplitEscapes(lit)) == lit
    decreases |lit|
  {
    var f := FirstEscape(lit, 0);
    if f.None? {
      assert SplitEscapes(lit) == [lit] + [];
      ConcatCons(lit, []);
    } else {
      SplitEscapesConcat(lit[EscapeEnd(lit, f.value)..]);
      SplitEscapesConcatStep(lit);
    }
  }

  lemma SplitEscapesConcatStep(lit: string)
    requires FirstEscape(lit, 0).Some?
    requires var e := EscapeEnd(lit, FirstEscape(lit, 0).value); Concat(SplitEscapes(lit[e..])) == lit[e..]
    ensures Concat(SplitEscapes(lit)) == lit
  {
    var i := FirstEscape(lit, 0).value;
    var e := EscapeEnd(lit, i);
    var rest := SplitEscapes(lit[e..]);
    assert SplitEscapes(lit) == [lit[..i], lit[i..e]] + rest;
    ConcatPair(lit[..i], lit[i..e], rest);
    SliceThree(lit, i, e);
  }

  lemma SliceThree(s: string, i: nat, e: nat)
    requires i <= e <= |s|
    ensures s == s[..i] + (s[i..e] + s[e..])
  {
  }

  lemma ConcatPair(a: string, b: string, rest: seq<string>)
    ensures Concat([a, b] + rest) == a + (b + Concat(rest))
  {
    assert [a, b] + rest == [a] + ([b] + rest);
    ConcatCons(a, [b] + rest);
    ConcatCons(b, rest);
  }

  /** The escape pieces of the split are exactly the matches: each starts with a
      backslash and is at least two characters long. */
  lemma {:induction false} SplitEscapesMatches(lit: string, k: nat)
    requires k < |SplitEscapes(lit)| && k % 2 == 1
    ensures |SplitEscapes(lit)[k]| >= 2 && SplitEscapes(lit)[k][0] == '\\'
    decreases |lit|
  {
    var i := FirstEscape(lit, 0).value;
    var e := EscapeEnd(lit, i);
    if k > 1 {
      SplitEscapesMatches(lit[e..], k - 2);
    }
  }

  /** Python's `chr()` as far as a Dafny `char` can follow it. */
  function CodePoint(v: nat): (r: Outcome<string>)
    ensures r.Ok? ==> |r.value| == 1 && r.value[0] as int == v
    ensures r.Err? ==> r.error == ValueError(v) || r.error == Unrepresentable(v)
    ensures r.Err? <==> v > 0x10FFFF || 0xD800 <= v < 0xE000
  {
    if v > 0x10FFFF then Err(ValueError(v))
    else if 0xD800 <= v < 0xE000 then Err(Unrepresentable(v))
    else Ok([v as char])
  }

  /** The longest prefix of hexadecimal digits. */
  function LeadingHex(s: string): (h: string)
    ensures |h| <= |s| && h == s[..|h|] && AllHexDigits(h)
    ensures |h| == |s| || !IsHexDigit(s[|h|])
  {
    s[..HexRunEnd(s, 0, |s|)]
  }

  /** One piece of the split, as the loop body of `unescape_string_literal`
      treats it. An escape piece `\X...` becomes the code point its hex digits
      denote (Python's `int(..., 16)` ignores the whitespace after them) or the
      character after the backslash; a piece that holds a backslash anywhere
      else is an invalid escape. */
  function UnescapePiece(p: string): (r: Outcome<string>)
    ensures '\\' !in p ==> r == Ok(p)
    ensures r.Err? ==> r.error == SyntaxError(InvalidEscape) || r.error.ValueError? || r.error.Unrepresentable?
  {
    if p == [] then Ok([])
    else if '\\' in p then
      if p[0] == '\\' && |p| > 1 then
        var body := p[1..];
        if IsHexDigit(body[0]) then CodePoint(HexValue(LeadingHex(body)))
        else Ok(body)
      else Err(SyntaxError(InvalidEscape))
    else Ok(p)
  }

  lemma UnescapePiecesCons(p: string, rest: seq<string>)
    ensures UnescapePieces([p] + rest) ==
      if UnescapePiece(p).Ok? then Prepend(UnescapePiece(p).value, UnescapePieces(rest)) else Err(UnescapePiece(p).error)
  {
    assert ([p] + rest)[0] == p && ([p] + rest)[1..] == rest;
  }

  /** Prefix a successful result with `a`; an error passes through. */
  function Prepend(a: string, r: Outcome<string>): Outcome<string> {
    if r.Ok? then Ok(a + r.value) else r
  }

  /** The pieces unescaped left to right and joined; the first error wins. */
  function UnescapePieces(parts: seq<string>): (r: Outcome<string>)
    ensures r.Err? ==> r.error == SyntaxError(InvalidEscape) || r.error.ValueError? || r.error.Unrepresentable?
  {
    if parts == [] then Ok([])
    else
      var head :- UnescapePiece(parts[0]);
      Prepend(head, UnescapePieces(parts[1..]))
  }

  /** `unescape_string_literal(literal)`. */
  function Unescape(lit: string): (r: Outcome<string>)
    ensures r.Err? ==> r.error == SyntaxError(InvalidEscape) || r.error.ValueError? || r.error.Unrepresentable?
  {
    UnescapePieces(SplitEscapes(lit))
  }

  /** The imperative `unescape_string_literal`: a loop over the split that
      appends each decoded piece to `substrings`. */
  method UnescapeStringLiteral(lit: string) returns (r: Outcome<string>)
    ensures r == Unescape(lit)
  {
    var parts := SplitEscapes(lit);
    var substrings: seq<string> := [];
    var i := 0;
    assert [] + Concat(parts[i..]) == Concat(parts[i..]);
    assert UnescapePieces(parts).Ok? ==> [] + UnescapePieces(parts).value == UnescapePieces(parts).value;
    while i < |parts|
      invariant 0 <= i <= |parts|
      invariant UnescapePieces(parts) == Prepend(Concat(substrings), UnescapePieces(parts[i..]))
      decreases |parts| - i
    {
      var substring := parts[i];
      assert parts[i..] == [substring] + parts[i + 1..];
      UnescapePiecesCons(substring, parts[i + 1..]);
      if substring == [] {
        PrependPrepend(Concat(substrings), [], UnescapePieces(parts[i + 1..]));
        assert Concat(substrings) + [] == Concat(substrings);
        i := i + 1;
        continue;
      } else if '\\' in substring {
        if substring[0] == '\\' && |substring| > 1 {
          substring := substring[1..];
          if IsHexDigit(substring[0]) {
            var c := CodePoint(HexValue(LeadingHex(substring)));
            if c.Err? {
              return Err(c.error);
            }
            substring := c.value;
          }
        } else {
          return Err(SyntaxError(InvalidEscape));
        }
      }
      ConcatAppend(substrings, substring);
      PrependPrepend(Concat(substrings), substring, UnescapePieces(parts[i + 1..]));
      substrings := substrings + [substring];
      i := i + 1;
    }
    assert Concat(substrings) + [] == Concat(substrings);
    return Ok(Concat(substrings));
  }

  lemma PrependPrepend(a: string, b: string, r: Outcome<string>)
    ensures Prepend(a, Prepend(b, r)) == Prepend(a + b, r)
  {
    if r.Ok? {
      assert a + (b + r.value) == (a + b) + r.value;
    }
  }

  /** A literal with no backslash is its own unescaping. */
  lemma UnescapeVerbatim(lit: string)
    requires '\\' !in lit
    ensures Unescape(lit) == Ok(lit)
  {
    assert forall k | 0 <= k < |lit| :: lit[k] != '\\';
    assert SplitEscapes(lit) == [lit];
    assert [lit] == [lit] + [];
    UnescapePiecesCons(lit, []);
    assert lit + [] == lit;
  }

  // ---- The escape that denotes a code point, as a partner of unescaping.

  function HexDigitChar(d: nat): (c: char)
    requires d < 16
    ensures IsHexDigit(c) && HexDigitValue(c) == d
  {
    if d < 10 then DigitChar(d) else ('a' as int + d - 10) as char
  }

  /** `n` in exactly `width` hexadecimal digits, zero-padded. */
  function HexDigits(n: nat, width: nat): (h: string)
    ensures |h| == width && AllHexDigits(h)
  {
    if width == 0 then [] else HexDigits(n / 16, width - 1) + [HexDigitChar(n % 16)]
  }

  lemma {:induction false} HexDigitsValue(n: nat, width: nat)
    requires n < Pow16(width)
    ensures HexValue(HexDigits(n, width)) == n
  {
    if width > 0 {
      var h := HexDigits(n, width);
      assert h[..|h| - 1] == HexDigits(n / 16, width - 1);
      HexDigitsValue(n / 16, width - 1);
    }
  }

  /** The six-digit escape of a character, terminated by a space so that a
      following hex digit is not read into it. */
  function EscapeChar(c: char): string {
    "\\" + HexDigits(c as int, 6) + " "
  }

  /** Every character escaped. */
  function EscapeAll(s: string): string {
    if s == [] then [] else EscapeChar(s[0]) + EscapeAll(s[1..])
  }

  /** Splitting a literal that starts with an escaped character yields an empty
      text piece, that escape, then the split of the remainder. */
  lemma SplitEscapeChar(c: char, rest: string)
    ensures SplitEscapes(EscapeChar(c) + rest) == ["", EscapeChar(c)] + SplitEscapes(rest)
  {
    var e := EscapeChar(c);
    var lit := e + rest;
    var h := HexDigits(c as int, 6);
    assert |e| == 8 && e[0] == '\\' && e[7] == ' ';
    assert forall k | 1 <= k < 7 :: lit[k] == h[k - 1];
    assert lit[7] == ' ';
    assert FirstEscape(lit, 0) == Some(0);
    assert HexRunEnd(lit, 1, 6) == 7;
    assert EscapeEnd(lit, 0) == 8;
    assert lit[..0] == "" && lit[0..8] == e && lit[8..] == rest;
  }

  /** The escape of a character unescapes to that character. */
  lemma UnescapeEscapeChar(c: char)
    ensures UnescapePiece(EscapeChar(c)) == Ok([c])
  {
    var e := EscapeChar(c);
    var h := HexDigits(c as int, 6);
    assert e[0] == '\\' && '\\' in e;
    var body := e[1..];
    assert body == h + " ";
    assert LeadingHex(body) == h by {
      assert forall k | 0 <= k < 6 :: body[k] == h[k];
      assert HexRunEnd(body, 0, |body|) == 6;
    }
    assert c as int < Pow16(6);
    HexDigitsValue(c as int, 6);
  }

  /** Unescaping undoes escaping, for every string. */
  lemma {:induction false} UnescapeEscapeAll(s: string)
    ensures Unescape(EscapeAll(s)) == Ok(s)
  {
    if s == [] {
      assert SplitEscapes([]) == [[]] + [];
      UnescapePiecesCons([], []);
      assert [] + [] == s;
    } else {
      UnescapeEscapeAll(s[1..]);
      UnescapeAfterEscapeChar(s[0], EscapeAll(s[1..]), s[1..]);
      assert [s[0]] + s[1..] == s;
    }
  }

  /** An escaped character in front of a literal adds that character in front
      of its value. */
  lemma UnescapeAfterEscapeChar(c: char, rest: string, value: string)
    requires Unescape(rest) == Ok(value)
    ensures Unescape(EscapeChar(c) + rest) == Ok([c] + value)
  {
    SplitEscapeChar(c, rest);
    UnescapeEscapeChar(c);
    UnescapeAfterPiece(EscapeChar(c) + rest, EscapeChar(c), [c], SplitEscapes(rest), value);
  }

  /** A literal that splits into an empty text piece, an escape piece and
      more pieces has the escape's value followed by the value of the rest. */
  lemma UnescapeAfterPiece(lit: string, e: string, decoded: string, tail: seq<string>, value: string)
    requires SplitEscapes(lit) == ["", e] + tail
    requires UnescapePiece(e) == Ok(decoded)
    requires UnescapePieces(tail) == Ok(value)
    ensures Unescape(lit) == Ok(decoded + value)
  {
    assert ["", e] + tail == [""] + ([e] + tail);
    UnescapePiecesCons("", [e] + tail);
    UnescapePiecesCons(e, tail);
    assert "" + (decoded + value) == decoded + value;
  }

  /** The terminators the escape pattern allows after its hex digits: none,
      CRLF, or one whitespace character. */
  predicate IsEscapeTerminator(t: string) {
    t == "" || t == "\r\n" || (|t| == 1 && IsSpace(t[0]))
  }

  /** A code-point escape in front of the rest of a literal: a backslash, one to
      six hex digits `h` and a terminator `t`, where the rest does not extend
      the match (no further hex digit while fewer than six were read, no
      whitespace when there is no terminator, no `\n` after a lone `\r`). It
      stands for the code point `h` denotes, followed by the value of the rest;
      an invalid code point is the first error. */
  lemma CodePointEscape(h: string, t: string, rest: string)
    requires 1 <= |h| <= 6 && AllHexDigits(h) && IsEscapeTerminator(t)
    requires t == "" && |h| < 6 ==> rest == [] || !IsHexDigit(rest[0])
    requires t == "" ==> rest == [] || !IsSpace(rest[0])
    requires t == "\r" ==> rest == [] || rest[0] != '\n'
    ensures var v := CodePoint(HexValue(h));
            Unescape("\\" + h + t + rest) == if v.Ok? then Prepend(v.value, Unescape(rest)) else Err(v.error)
  {
    var e := "\\" + h + t;
    CodePointEscapeSplits(h, t, rest);
    CodePointEscapePiece(h, t);
    UnescapeLeadingPiece(e + rest, e, SplitEscapes(rest));
  }

  /** Such an escape is split off whole, behind an empty text piece. */
  lemma CodePointEscapeSplits(h: string, t: string, rest: string)
    requires 1 <= |h| <= 6 && AllHexDigits(h) && IsEscapeTerminator(t)
    requires t == "" && |h| < 6 ==> rest == [] || !IsHexDigit(rest[0])
    requires t == "" ==> rest == [] || !IsSpace(rest[0])
    requires t == "\r" ==> rest == [] || rest[0] != '\n'
    ensures SplitEscapes("\\" + h + t + rest) == ["", "\\" + h + t] + SplitEscapes(rest)
  {
    var e := "\\" + h + t;
    var lit := e + rest;
    var q := t + rest;
    Associative("\\" + h, t, rest);
    assert lit == "\\" + h + q;
    assert q != [] ==> q[0] == (if t == "" then rest[0] else t[0]);
    HexRunSplit("\\", h, q, 6);
    EscapeEndAfterHex(lit, 1 + |h|, |t|);
    assert lit[..0] == "" && lit[0..|e|] == e && lit[|e|..] == rest;
  }

  /** Where the escape at the start of `lit` ends, once its hex run is known to
      end at `j` and the next `n` characters are its terminator. */
  lemma EscapeEndAfterHex(lit: string, j: nat, n: nat)
    requires 2 <= j <= |lit| && lit[0] == '\\' && IsHexDigit(lit[1]) && HexRunEnd(lit, 1, 6) == j
    requires n <= 2 && j + n <= |lit|
    requires n == 0 ==> j == |lit| || !IsSpace(lit[j])
    requires n == 1 ==> IsSpace(lit[j]) && !(lit[j] == '\r' && j + 1 < |lit| && lit[j + 1] == '\n')
    requires n == 2 ==> lit[j] == '\r' && lit[j + 1] == '\n'
    ensures FirstEscape(lit, 0) == Some(0) && EscapeEnd(lit, 0) == j + n
  {
  }

  /** Such an escape, as a piece, is the code point of its hex digits. */
  lemma CodePointEscapePiece(h: string, t: string)
    requires 1 <= |h| <= 6 && AllHexDigits(h) && IsEscapeTerminator(t)
    ensures UnescapePiece("\\" + h + t) == CodePoint(HexValue(h))
  {
    var e := "\\" + h + t;
    BackslashThen(h, t);
    HexEscapePiece(e);
    TerminatorNotHex(t);
    LeadingHexSplit(h, t);
  }

  lemma BackslashThen(h: string, t: string)
    requires h != []
    ensures var e := "\\" + h + t; |e| > 1 && e[0] == '\\' && e[1] == h[0] && e[1..] == h + t
  {
  }

  /** A terminator does not start with a hex digit. */
  lemma TerminatorNotHex(t: string)
    requires IsEscapeTerminator(t)
    ensures t == [] || !IsHexDigit(t[0])
  {
  }

  /** A backslash and a hex digit begin an escape that denotes the code point
      of the leading hex digits after the backslash. */
  lemma HexEscapePiece(e: string)
    requires |e| > 1 && e[0] == '\\' && IsHexDigit(e[1])
    ensures UnescapePiece(e) == CodePoint(HexValue(LeadingHex(e[1..])))
  {
    assert e[0] in e;
  }

  /** The leading hex digits of `h + t` are `h` when `t` does not start with one. */
  lemma LeadingHexSplit(h: string, t: string)
    requires AllHexDigits(h) && (t == [] || !IsHexDigit(t[0]))
    ensures LeadingHex(h + t) == h
  {
    assert h + t == [] + h + t;
    HexRunSplit([], h, t, |h + t|);
    assert (h + t)[..|h|] == h;
  }

  /** The greedy hex run from the end of `p` covers exactly the hex digits `x`
      when the run stops after them. */
  lemma {:induction false} HexRunSplit(p: string, x: string, q: string, n: nat)
    requires AllHexDigits(x) && |x| <= n
    requires |x| == n || q == [] || !IsHexDigit(q[0])
    ensures HexRunEnd(p + x + q, |p|, n) == |p| + |x|
    decreases |x|
  {
    if x == [] {
      assert p + x + q == p + q;
    } else {
      assert p + x + q == (p + [x[0]]) + x[1..] + q;
      assert AllHexDigits(x[1..]) by {
        assert forall k | 0 <= k < |x[1..]| :: x[1..][k] == x[k + 1];
      }
      HexRunSplit(p + [x[0]], x[1..], q, n - 1);
    }
  }

  /** A literal that splits into an empty text piece, a piece `e` and more
      pieces: `e`'s value followed by the value of the rest, `e`'s error first. */
  lemma UnescapeLeadingPiece(lit: string, e: string, tail: seq<string>)
    requires SplitEscapes(lit) == ["", e] + tail
    ensures Unescape(lit) ==
      if UnescapePiece(e).Ok? then Prepend(UnescapePiece(e).value, UnescapePieces(tail)) else Err(UnescapePiece(e).error)
  {
    assert ["", e] + tail == [""] + ([e] + tail);
    UnescapePiecesCons("", [e] + tail);
    UnescapePiecesCons(e, tail);
    var r := UnescapePieces([e] + tail);
    assert r.Ok? ==> "" + r.value == r.value;
  }

  /** A backslash followed by a character that is not a hex digit stands for
      that character, wherever more text follows. */
  lemma UnescapeSimpleEscape(c: char, rest: string)
    requires !IsHexDigit(c)
    ensures Unescape(['\\', c] + rest) == Prepend([c], Unescape(rest))
  {
    var e := ['\\', c];
    SimpleEscapeSplits(c, rest);
    assert '\\' in e && e[1..] == [c];
    UnescapeLeadingPiece(e + rest, e, SplitEscapes(rest));
  }

  lemma SimpleEscapeSplits(c: char, rest: string)
    requires !IsHexDigit(c)
    ensures SplitEscapes(['\\', c] + rest) == ["", ['\\', c]] + SplitEscapes(rest)
  {
    var lit := ['\\', c] + rest;
    assert lit[0] == '\\' && lit[1] == c;
    assert FirstEscape(lit, 0) == Some(0);
    assert EscapeEnd(lit, 0) == 2;
    assert lit[..0] == "" && lit[0..2] == ['\\', c] && lit[2..] == rest;
  }

  /** Text without a backslash in front of a literal comes through unchanged,
      so the escape lemmas above apply anywhere in a literal. */
  lemma {:induction false} UnescapePlainPrefix(plain: string, rest: string)
    requires '\\' !in plain
    ensures Unescape(plain + rest) == Prepend(plain, Unescape(rest))
    decreases |plain|
  {
    if plain == "" {
      assert plain + rest == rest;
      var r := Unescape(rest);
      assert r.Ok? ==> "" + r.value == r.value;
    } else {
      var tail := plain[1..];
      assert plain == [plain[0]] + tail;
      assert plain + rest == [plain[0]] + (tail + rest);
      UnescapePlainChar(plain[0], tail + rest);
      UnescapePlainPrefix(tail, rest);
      PrependPrepend([plain[0]], tail, Unescape(rest));
    }
  }

  /** One character other than a backslash in front of a literal. */
  lemma UnescapePlainChar(a: char, x: string)
    requires a != '\\'
    ensures Unescape([a] + x) == Prepend([a], Unescape(x))
  {
    var parts := SplitEscapes(x);
    SplitAfterPlainChar(a, x);
    FirstPieceBackslashAtEnd(x);
    PlainCharPiece(a, parts[0]);
    assert [[a] + parts[0]] + parts[1..] == [[a] + parts[0]] + parts[1..];
    assert parts == [parts[0]] + parts[1..];
    UnescapePiecesCons([a] + parts[0], parts[1..]);
    UnescapePiecesCons(parts[0], parts[1..]);
    var head := UnescapePiece(parts[0]);
    if head.Ok? {
      PrependPrepend([a], head.value, UnescapePieces(parts[1..]));
    }
  }

  /** The first piece of a split holds a backslash, if at all, only as its last
      character. */
  lemma FirstPieceBackslashAtEnd(x: string)
    ensures forall k | 0 <= k < |SplitEscapes(x)[0]| - 1 :: SplitEscapes(x)[0][k] != '\\'
  {
  }

  /** A piece whose only backslash can be its last character, with one more
      character other than a backslash in front. */
  lemma PlainCharPiece(a: char, p: string)
    requires a != '\\'
    requires forall k | 0 <= k < |p| - 1 :: p[k] != '\\'
    ensures UnescapePiece([a] + p) == Prepend([a], UnescapePiece(p))
  {
    var q := [a] + p;
    assert q[0] == a && q[1..] == p;
    if '\\' in p {
      assert '\\' in q;
      assert p[0] == '\\' ==> |p| == 1;
    } else {
      assert forall k | 0 <= k < |q| :: q[k] != '\\' by {
        forall k | 0 <= k < |q| ensures q[k] != '\\' {
          if k > 0 { assert q[k] == p[k - 1]; }
        }
      }
    }
  }

  /** The split of `[a] + x` is the split of `x` with `a` in front of its first
      piece. */
  lemma SplitAfterPlainChar(a: char, x: string)
    requires a != '\\'
    ensures var parts := SplitEscapes(x);
            SplitEscapes([a] + x) == [[a] + parts[0]] + parts[1..]
  {
    FirstEscapeShift(a, x, 0);
    var f := FirstEscape(x, 0);
    if f.Some? {
      EscapeEndShift(a, x, f.value);
      SplitAfterPlainCharAt(a, x, f.value, EscapeEnd(x, f.value));
    }
  }

  lemma SplitAfterPlainCharAt(a: char, x: string, i: nat, e: nat)
    requires i <= e <= |x| && FirstEscape(x, 0) == Some(i) && EscapeEnd(x, i) == e
    requires FirstEscape([a] + x, 0) == Some(i + 1) && EscapeEnd([a] + x, i + 1) == e + 1
    ensures var parts := SplitEscapes(x);
            SplitEscapes([a] + x) == [[a] + parts[0]] + parts[1..]
  {
    SplitAtEscape(x, i, e);
    SplitAtEscape([a] + x, i + 1, e + 1);
    SplitShiftSlices(a, x, i, e);
    ConsOntoFirst(a, x[..i], x[i..e], SplitEscapes(x[e..]));
  }

  lemma SplitAtEscape(lit: string, i: nat, e: nat)
    requires FirstEscape(lit, 0) == Some(i) && EscapeEnd(lit, i) == e
    ensures SplitEscapes(lit) == [lit[..i], lit[i..e]] + SplitEscapes(lit[e..])
  {
  }

  lemma ConsOntoFirst(a: char, u: string, v: string, tail: seq<string>)
    ensures var parts := [u, v] + tail; [[a] + u, v] + tail == [[a] + parts[0]] + parts[1..]
  {
    var parts := [u, v] + tail;
    assert parts[1..] == [v] + tail;
  }

  lemma SplitShiftSlices(a: char, x: string, i: nat, e: nat)
    requires i <= e <= |x|
    ensures var lit := [a] + x; lit[..i + 1] == [a] + x[..i] && lit[i + 1..e + 1] == x[i..e] && lit[e + 1..] == x[e..]
  {
  }

  lemma {:induction false} FirstEscapeShift(a: char, x: string, i: nat)
    requires a != '\\' && i <= |x|
    ensures FirstEscape([a] + x, i + 1) ==
            if FirstEscape(x, i).Some? then Some(FirstEscape(x, i).value + 1) else None
    ensures i == 0 ==> FirstEscape([a] + x, 0) == FirstEscape([a] + x, 1)
    decreases |x| - i
  {
    var lit := [a] + x;
    assert lit[i + 1..] == x[i..];
    if i + 1 < |x| && x[i] != '\\' {
      FirstEscapeShift(a, x, i + 1);
    }
    assert i + 1 < |lit| ==> lit[i + 1] == x[i];
  }

  lemma EscapeEndShift(a: char, x: string, i: nat)
    requires i + 1 < |x| && x[i] == '\\'
    ensures var lit := [a] + x; lit[i + 1] == '\\' && EscapeEnd(lit, i + 1) == EscapeEnd(x, i) + 1
  {
    var lit := [a] + x;
    assert lit[i + 1] == x[i] && lit[i + 2] == x[i + 1];
    if IsHexDigit(x[i + 1]) {
      var j := HexRunEnd(x, i + 1, 6);
      HexRunEndShift(a, x, i + 1, 6);
      EscapeEndHex(x, i, j);
      EscapeEndHex(lit, i + 1, j + 1);
      TerminatorShift(a, x, j);
    } else {
      assert EscapeEnd(x, i) == i + 2;
      assert EscapeEnd(lit, i + 1) == i + 3;
    }
  }

  /** Where the optional terminator after a hex run ending at `j` ends. */
  function TerminatorEnd(lit: string, j: nat): nat
    requires j <= |lit|
  {
    if j + 1 < |lit| && lit[j] == '\r' && lit[j + 1] == '\n' then j + 2
    else if j < |lit| && IsSpace(lit[j]) then j + 1 else j
  }

  /** `EscapeEnd` once the hex run is known to end at `j`. */
  lemma EscapeEndHex(lit: string, i: nat, j: nat)
    requires i + 1 < |lit| && lit[i] == '\\' && IsHexDigit(lit[i + 1]) && HexRunEnd(lit, i + 1, 6) == j
    ensures j <= |lit| && EscapeEnd(lit, i) == TerminatorEnd(lit, j)
  {
  }

  lemma TerminatorShift(a: char, x: string, j: nat)
    requires j <= |x|
    ensures TerminatorEnd([a] + x, j + 1) == TerminatorEnd(x, j) + 1
  {
    var lit := [a] + x;
    assert j < |x| ==> lit[j + 1] == x[j];
    assert j + 1 < |x| ==> lit[j + 2] == x[j + 1];
  }

  lemma {:induction false} HexRunEndShift(a: char, x: string, i: nat, n: nat)
    requires i <= |x|
    ensures HexRunEnd([a] + x, i + 1, n) == HexRunEnd(x, i, n) + 1
    decreases n
  {
    var lit := [a] + x;
    assert i < |x| ==> lit[i + 1] == x[i];
    if n > 0 && i < |x| && IsHexDigit(x[i]) {
      HexRunEndShift(a, x, i + 1, n - 1);
    }
  }

  /** A lone trailing backslash is an invalid escape. */
  lemma TrailingBackslash(text: string)
    requires '\\' !in text
    ensures Unescape(text + "\\") == Err(SyntaxError(InvalidEscape))
  {
    var lit := text + "\\";
    assert forall k | 0 <= k < |text| :: lit[k] == text[k];
    assert SplitEscapes(lit) == [lit];
    assert lit[|lit| - 1] in lit;
    assert lit[0] != '\\' || |lit| == 1 by {
      if |text| > 0 {
        assert lit[0] == text[0];
        assert text[0] in text;
      }
    }
  }
}
