/** `parse_series`: the `An+B` micro-syntax of the `:nth-*()` arguments. */
module Series {
  import opened Wrappers
  import opened Text

  /** The source accepts a string (a token's text) or an int; an `Element`
      argument goes through `_format_element`, which is not part of this model. */
  datatype Argument = IntArgument(n: int) | StrArgument(s: string)

  /** Python's `int()` raised `ValueError`. */
  datatype SeriesError = ValueError

  /** One side of the split at the first `n`: empty gives `absent`, a lone sign
      gives `int(sign + '1')`, anything else goes through `int()`. */
  function Coefficient(part: string, absent: int): Option<int> {
    if part == "" then Some(absent)
    else if part == "-" then Some(-1)
    else if part == "+" then Some(1)
    else ParseInt(part)
  }

  /** `parse_series(s)`, returning `(a, b)`. */
  function ParseSeries(arg: Argument): Result<(int, int), SeriesError> {
    match arg
    // `not 0` is true and gives (0, 0), which is also (0, b) for b = 0.
    case IntArgument(b) => Ok((0, b))
    case StrArgument(s) =>
      if s == "" || s == "*" then Ok((0, 0))
      else if s == "odd" then Ok((2, 1))
      else if s == "even" then Ok((2, 0))
      else if s == "n" then Ok((1, 0))
      else match IndexOfFrom(s, 'n', 0)
        case None =>
          (match ParseInt(s) case Some(b) => Ok((0, b)) case None => Err(ValueError))
        case Some(i) =>
          (match (Coefficient(s[..i], 1), Coefficient(s[i + 1..], 0))
           case (Some(a), Some(b)) => Ok((a, b))
           case _ => Err(ValueError))
  }

  /** A string with no `n` (other than the special words) is a plain `b`. */
  lemma WithoutN(s: string)
    requires 'n' !in s && s != "" && s != "*" && s != "odd"
    ensures ParseSeries(StrArgument(s)) ==
      match ParseInt(s) case Some(b) => Ok((0, b)) case None => Err(ValueError)
  {
    assert forall k | 0 <= k < |s| :: s[k] != 'n';
  }

  /** The general case: split at the first `n`, read `a` before it and `b` after. */
  lemma SplitAtFirstN(x: string, y: string)
    requires 'n' !in x
    requires x + "n" + y != "even" && x + "n" + y != "n"
    ensures ParseSeries(StrArgument(x + "n" + y)) ==
      match (Coefficient(x, 1), Coefficient(y, 0))
      case (Some(a), Some(b)) => Ok((a, b))
      case _ => Err(ValueError)
  {
    SplitFacts(x, y);
  }

  /** Where the first `n` of `x + "n" + y` is, and that the string is not one
      of the special words `""`, `*` and `odd`. */
  lemma SplitFacts(x: string, y: string)
    requires 'n' !in x
    ensures var s := x + "n" + y;
      s != "" && s != "*" && s != "odd" &&
      IndexOfFrom(s, 'n', 0) == Some(|x|) && s[..|x|] == x && s[|x| + 1..] == y
  {
    var s := x + "n" + y;
    assert s[|x|] == 'n';
    assert s != "odd" by {
      assert 'n' in s;
      assert 'n' !in "odd";
    }
    assert forall k | 0 <= k < |x| :: s[k] == x[k];
    IndexOfFromFirst(s, 'n', 0, |x|);
    assert s[..|x|] == x;
    assert s[|x| + 1..] == y;
  }

  /** The canonical rendering `An+B` / `An-B` of a series. */
  function FormatSeries(a: int, b: int): string {
    IntToString(a) + "n" + (if b < 0 then IntToString(b) else "+" + IntToString(b))
  }

  /** Every pair is read back from its rendering. */
  lemma {:induction false} FormatSeriesRoundTrip(a: int, b: int)
    ensures ParseSeries(StrArgument(FormatSeries(a, b))) == Ok((a, b))
  {
    var x := IntToString(a);
    var y := if b < 0 then IntToString(b) else "+" + IntToString(b);
    var digits := NatToString(if a < 0 then -a else a);
    assert x == digits || x == "-" + digits;
    assert forall k | 0 <= k < |x| :: x[k] == '-' || IsDigit(x[k]);
    assert x[0] == '-' || IsDigit(x[0]);
    var s := x + "n" + y;
    assert s[0] == x[0];
    SplitAtFirstN(x, y);
    ParseIntToString(a);
    assert x != "+" && x != "-" && x != "";
    if b < 0 {
      ParseIntToString(b);
      assert y != "+" && y != "-" && y != "";
    } else {
      ParseIntPlus(b);
      assert y != "+" && y != "-" && y != "";
    }
  }

  /** The documented table of fixed cases. */
  lemma FixedCases(b: int)
    ensures ParseSeries(StrArgument("")) == Ok((0, 0))
    ensures ParseSeries(StrArgument("*")) == Ok((0, 0))
    ensures ParseSeries(IntArgument(b)) == Ok((0, b))
    ensures ParseSeries(StrArgument("odd")) == Ok((2, 1))
    ensures ParseSeries(StrArgument("even")) == Ok((2, 0))
    ensures ParseSeries(StrArgument("n")) == Ok((1, 0))
  {
  }

  /** Worked examples with an `n`. */
  lemma CoefficientExamples()
    ensures ParseSeries(StrArgument("1n+3")) == Ok((1, 3))
    ensures ParseSeries(StrArgument("3n")) == Ok((3, 0))
  {
    OnePlusThree();
    ThreeN();
  }

  lemma OnePlusThree()
    ensures ParseSeries(StrArgument("1n+3")) == Ok((1, 3))
  {
    CoefficientDigits();
    assert "1n+3" == "1" + "n" + "+3";
    SplitAtFirstN("1", "+3");
  }

  lemma CoefficientDigits()
    ensures Coefficient("1", 1) == Some(1)
    ensures Coefficient("+3", 0) == Some(3)
    ensures Coefficient("3", 1) == Some(3)
  {
    ParseIntToString(1);
    assert IntToString(1) == "1";
    ParseIntPlus(3);
    assert "+" + NatToString(3) == "+3";
    ParseIntToString(3);
    assert IntToString(3) == "3";
  }

  lemma ThreeN()
    ensures ParseSeries(StrArgument("3n")) == Ok((3, 0))
  {
    CoefficientDigits();
    assert "3n" == "3" + "n" + "";
    SplitAtFirstN("3", "");
  }

  /** A missing or lone-sign coefficient before the `n` stands for 1 or -1. */
  lemma SignExamples()
    ensures ParseSeries(StrArgument("n-5")) == Ok((1, -5))
    ensures ParseSeries(StrArgument("+n")) == Ok((1, 0))
    ensures ParseSeries(StrArgument("-n")) == Ok((-1, 0))
  {
    NMinusFive();
    PlusN();
    MinusN();
  }

  lemma NMinusFive()
    ensures ParseSeries(StrArgument("n-5")) == Ok((1, -5))
  {
    assert Coefficient("-5", 0) == Some(-5) by {
      ParseIntToString(-5);
      assert IntToString(-5) == "-5";
    }
    assert "n-5" == "" + "n" + "-5";
    SplitAtFirstN("", "-5");
  }

  lemma PlusN()
    ensures ParseSeries(StrArgument("+n")) == Ok((1, 0))
  {
    assert "+n" == "+" + "n" + "";
    SplitAtFirstN("+", "");
  }

  lemma MinusN()
    ensures ParseSeries(StrArgument("-n")) == Ok((-1, 0))
  {
    assert "-n" == "-" + "n" + "";
    SplitAtFirstN("-", "");
  }

  /** Without an `n` the argument is `int()` of the whole string, surrounding
      whitespace allowed. */
  lemma IntegerExamples()
    ensures ParseSeries(StrArgument("5")) == Ok((0, 5))
    ensures ParseSeries(StrArgument(" 7 ")) == Ok((0, 7))
  {
    Five();
    PaddedSeven();
  }

  lemma Five()
    ensures ParseSeries(StrArgument("5")) == Ok((0, 5))
  {
    WithoutN("5");
    assert Strip("5") == "5";
  }

  lemma PaddedSeven()
    ensures ParseSeries(StrArgument(" 7 ")) == Ok((0, 7))
  {
    WithoutN(" 7 ");
    assert Strip(" 7 ") == "7";
  }

  /** A string with no `n` that is not a number raises `ValueError`. */
  lemma WordExample()
    ensures ParseSeries(StrArgument("foo")) == Err(ValueError)
  {
    WithoutN("foo");
    assert Strip("foo") == "foo";
  }

  /** `n+` splits into `a = ''` and `b = '+'`, so it reads as (1, 1). */
  lemma DanglingSignExample()
    ensures ParseSeries(StrArgument("n+")) == Ok((1, 1))
  {
    assert "n+" == "" + "n" + "+";
    SplitAtFirstN("", "+");
  }

  /** `int()` allows no space after the sign, so `1n+ 3` raises `ValueError`. */
  lemma SpaceAfterSignExample()
    ensures ParseSeries(StrArgument("1n+ 3")) == Err(ValueError)
  {
    assert Coefficient("+ 3", 0) == None by {
      StripUnpadded("+ 3");
      assert !IsDigit(' ');
    }
    assert "1n+ 3" == "1" + "n" + "+ 3";
    SplitAtFirstN("1", "+ 3");
  }
}
