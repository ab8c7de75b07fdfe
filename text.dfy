/** Character classes and number conversions used by both the tokenizer and the
    series parser: the regular-expression classes `\s`, `\w` and `\d`, hexadecimal
    and decimal digit strings, and Python's `int()` on a string. */
module Text {
  import opened Wrappers

  /** Python's `str.isspace()`, which is also what `\s` matches in a `str` pattern. */
  predicate IsSpace(c: char) {
    var n := c as int;
    (0x09 <= n <= 0x0D) || (0x1C <= n <= 0x20) || n == 0x85 || n == 0xA0 || n == 0x1680
    || (0x2000 <= n <= 0x200A) || n == 0x2028 || n == 0x2029 || n == 0x202F || n == 0x205F
    || n == 0x3000
  }

  /** `\d`, restricted to the ASCII digits. */
  predicate IsDigit(c: char) { '0' <= c <= '9' }

  predicate IsHexDigit(c: char) { IsDigit(c) || 'a' <= c <= 'f' || 'A' <= c <= 'F' }

  /** `\w`: ASCII letters, digits and `_`; every non-ASCII character that is not
      whitespace is treated as a word character. */
  predicate IsWordChar(c: char) {
    'a' <= c <= 'z' || 'A' <= c <= 'Z' || IsDigit(c) || c == '_' || (0x80 <= c as int && !IsSpace(c))
  }

  predicate AllDigits(s: string) { forall i | 0 <= i < |s| :: IsDigit(s[i]) }

  predicate AllHexDigits(s: string) { forall i | 0 <= i < |s| :: IsHexDigit(s[i]) }

  function DigitValue(c: char): (d: nat)
    requires IsDigit(c)
    ensures d < 10
  {
    (c as int) - ('0' as int)
  }

  function HexDigitValue(c: char): (d: nat)
    requires IsHexDigit(c)
    ensures d < 16
  {
    if IsDigit(c) then DigitValue(c)
    else if 'a' <= c <= 'f' then (c as int) - ('a' as int) + 10
    else (c as int) - ('A' as int) + 10
  }

  /** The value of a string of decimal digits, most significant first. */
  function DecimalValue(s: string): nat
    requires AllDigits(s)
  {
    if s == [] then 0 else DecimalValue(s[..|s| - 1]) * 10 + DigitValue(s[|s| - 1])
  }

  /** The value of a string of hexadecimal digits, most significant first. */
  function HexValue(s: string): nat
    requires AllHexDigits(s)
  {
    if s == [] then 0 else HexValue(s[..|s| - 1]) * 16 + HexDigitValue(s[|s| - 1])
  }

  /** Six hexadecimal digits denote at most 0xFFFFFF. */
  lemma {:induction false} HexValueBound(s: string)
    requires AllHexDigits(s)
    ensures HexValue(s) < Pow16(|s|)
  {
    if s != [] {
      HexValueBound(s[..|s| - 1]);
    }
  }

  function Pow16(n: nat): (p: nat)
    ensures p >= 1
  {
    if n == 0 then 1 else 16 * Pow16(n - 1)
  }

  function DigitChar(d: nat): (c: char)
    requires d < 10
    ensures IsDigit(c) && DigitValue(c) == d
  {
    ('0' as int + d) as char
  }

  /** Decimal rendering of a natural number (Python `str(n)` / `%r` of an int). */
  function NatToString(n: nat): (r: string)
    ensures |r| >= 1 && AllDigits(r)
  {
    if n < 10 then [DigitChar(n)] else NatToString(n / 10) + [DigitChar(n % 10)]
  }

  lemma {:induction false} NatToStringValue(n: nat)
    ensures DecimalValue(NatToString(n)) == n
  {
    if n >= 10 {
      var r := NatToString(n);
      assert r[..|r| - 1] == NatToString(n / 10);
      NatToStringValue(n / 10);
    }
  }

  function IntToString(i: int): (r: string)
    ensures |r| >= 1
  {
    if i < 0 then "-" + NatToString(-i) else NatToString(i)
  }

  /** Index of the first whitespace-free position at or after `i` (`\s*` from `i`). */
  function SkipSpaces(s: string, i: nat): (j: nat)
    requires i <= |s|
    ensures i <= j <= |s|
    ensures forall k | i <= k < j :: IsSpace(s[k])
    ensures j == |s| || !IsSpace(s[j])
    decreases |s| - i
  {
    if i < |s| && IsSpace(s[i]) then SkipSpaces(s, i + 1) else i
  }

  /** Index just past the trailing run of non-whitespace, scanning back from `j`. */
  function TrimEnd(s: string, i: nat, j: nat): (k: nat)
    requires i <= j <= |s|
    ensures i <= k <= j
    ensures forall m | k <= m < j :: IsSpace(s[m])
    ensures k == i || !IsSpace(s[k - 1])
    decreases j
  {
    if j > i && IsSpace(s[j - 1]) then TrimEnd(s, i, j - 1) else j
  }

  /** Python's `str.strip()` with no argument. */
  function Strip(s: string): (t: string)
    ensures |t| <= |s|
    ensures t != [] ==> !IsSpace(t[0]) && !IsSpace(t[|t| - 1])
  {
    var i := SkipSpaces(s, 0);
    s[i..TrimEnd(s, i, |s|)]
  }

  /** A string no whitespace character starts or ends is left alone by `Strip`. */
  lemma StripUnpadded(s: string)
    requires s != [] && !IsSpace(s[0]) && !IsSpace(s[|s| - 1])
    ensures Strip(s) == s
  {
  }

  /** Python's `int(s)` for a string: optional surrounding whitespace, an optional
      sign, then one or more decimal digits; anything else raises `ValueError`,
      here `None`. */
  function ParseInt(s: string): Option<int> {
    var t := Strip(s);
    if t != [] && (t[0] == '+' || t[0] == '-') then
      var digits := t[1..];
      if digits != [] && AllDigits(digits) then
        assert t == [t[0]] + digits;
        var n: int := DecimalValue(digits);
        Some(if t[0] == '-' then -n else n)
      else None
    else if t != [] && AllDigits(t) then Some(DecimalValue(t))
    else None
  }

  /** `int(str(i)) == i`. */
  lemma ParseIntToString(i: int)
    ensures ParseInt(IntToString(i)) == Some(i)
  {
    var r := IntToString(i);
    var digits := NatToString(if i < 0 then -i else i);
    NatToStringValue(if i < 0 then -i else i);
    assert !IsSpace(r[0]) && !IsSpace(r[|r| - 1]);
    StripUnpadded(r);
    if i < 0 {
      assert r[1..] == digits;
    }
  }

  /** `int('+' + str(n)) == n`. */
  lemma ParseIntPlus(n: nat)
    ensures ParseInt("+" + NatToString(n)) == Some(n)
  {
    var r := "+" + NatToString(n);
    NatToStringValue(n);
    StripUnpadded(r);
    assert r[1..] == NatToString(n);
  }

  /** First index `j >= from` with `s[j] == c` (Python `s.find(c, from)`). */
  function IndexOfFrom(s: string, c: char, from: nat): (r: Option<nat>)
    ensures r.Some? ==> from <= r.value < |s| && s[r.value] == c &&
                        forall k | from <= k < r.value :: s[k] != c
    ensures r.None? ==> forall k | from <= k < |s| :: s[k] != c
    decreases |s| - from
  {
    if from >= |s| then None
    else if s[from] == c then Some(from)
    else IndexOfFrom(s, c, from + 1)
  }

  /** The first occurrence at or after `from` is found. */
  lemma IndexOfFromFirst(s: string, c: char, from: nat, j: nat)
    requires from <= j < |s| && s[j] == c
    requires forall k | from <= k < j :: s[k] != c
    ensures IndexOfFrom(s, c, from) == Some(j)
  {
  }

  /** The concatenation of a sequence of strings (Python `''.join(parts)`). */
  function Concat(parts: seq<string>): string {
    if parts == [] then [] else parts[0] + Concat(parts[1..])
  }

  /** Python `sep.join(parts)`. */
  function JoinWith(sep: string, parts: seq<string>): string {
    if parts == [] then []
    else if |parts| == 1 then parts[0]
    else parts[0] + sep + JoinWith(sep, parts[1..])
  }

  /** Regrouping a concatenation of three strings. */
  lemma Associative(a: string, b: string, c: string)
    ensures (a + b) + c == a + (b + c)
  {
  }

  lemma ConcatCons(part: string, parts: seq<string>)
    ensures Concat([part] + parts) == part + Concat(parts)
  {
    assert ([part] + parts)[1..] == parts;
  }

  lemma {:induction false} ConcatAppend(parts: seq<string>, last: string)
    ensures Concat(parts + [last]) == Concat(parts) + last
  {
    if parts != [] {
      assert (parts + [last])[1..] == parts[1..] + [last];
      ConcatAppend(parts[1..], last);
    }
  }

  lemma {:induction false} JoinWithAppend(sep: string, parts: seq<string>, last: string)
    requires parts != []
    ensures JoinWith(sep, parts + [last]) == JoinWith(sep, parts) + sep + last
  {
    if |parts| > 1 {
      assert (parts + [last])[1..] == parts[1..] + [last];
      JoinWithAppend(sep, parts[1..], last);
    }
  }
}
