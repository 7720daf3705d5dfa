/**
 * PHP 8's loose comparison `==` between two strings, which is what a
 * `switch` on a string performs: when both strings are numeric strings they
 * are compared as numbers, otherwise byte by byte.  Numbers are kept exact
 * (as decimals), so the rounding of PHP's floats is not modelled.
 */
module PhpNumeric {
  import opened Wrappers

  predicate IsDigit(c: char)
  {
    '0' <= c <= '9'
  }

  /** The whitespace a numeric string may start and (since PHP 8) end with: space, \t, \n, \r, \v, \f. */
  predicate IsSpace(c: char)
  {
    c == ' ' || c == '\t' || c == '\n' || c == '\r' || c == '\U{B}' || c == '\U{C}'
  }

  /** The number `coef * 10^exp`. */
  datatype Decimal = Decimal(coef: int, exp: int)

  function Pow10(n: nat): (r: nat)
    ensures r > 0
  {
    if n == 0 then 1 else 10 * Pow10(n - 1)
  }

  /** Two decimals denote the same number. */
  predicate SameValue(x: Decimal, y: Decimal)
  {
    if x.exp <= y.exp then x.coef == y.coef * Pow10(y.exp - x.exp)
    else x.coef * Pow10(x.exp - y.exp) == y.coef
  }

  /** The end of the run of whitespace starting at `i`. */
  function SpacesEnd(s: string, i: nat): (j: nat)
    requires i <= |s|
    ensures i <= j <= |s|
    ensures forall k :: i <= k < j ==> IsSpace(s[k])
    ensures j < |s| ==> !IsSpace(s[j])
    decreases |s| - i
  {
    if i < |s| && IsSpace(s[i]) then SpacesEnd(s, i + 1) else i
  }

  /** The end of the run of digits starting at `i`. */
  function DigitsEnd(s: string, i: nat): (j: nat)
    requires i <= |s|
    ensures i <= j <= |s|
    ensures forall k :: i <= k < j ==> IsDigit(s[k])
    ensures j < |s| ==> !IsDigit(s[j])
    decreases |s| - i
  {
    if i < |s| && IsDigit(s[i]) then DigitsEnd(s, i + 1) else i
  }

  /** The value of a string of decimal digits. */
  function DigitsValue(d: string): nat
    requires forall k :: 0 <= k < |d| ==> IsDigit(d[k])
  {
    if |d| == 0 then 0
    else
      assert IsDigit(d[|d| - 1]);
      10 * DigitsValue(d[..|d| - 1]) + (d[|d| - 1] as int - '0' as int)
  }

  /** An exponent part `[eE][+-]?[0-9]+` read at `e`: its value and where it ends. */
  datatype Exponent = Exponent(value: int, end: nat)

  /** Reads an exponent at `e`; when there is none (also for an `e` with no digits after it) it is 0 and ends at `e`. */
  function ExponentAt(s: string, e: nat): (x: Exponent)
    requires e <= |s|
    ensures e <= x.end <= |s|
  {
    if e < |s| && (s[e] == 'e' || s[e] == 'E') then
      var signed := e + 1 < |s| && (s[e + 1] == '+' || s[e + 1] == '-');
      var g := if signed then e + 2 else e + 1;
      var h := DigitsEnd(s, g);
      if h == g then Exponent(0, e)
      else
        assert forall k :: 0 <= k < h - g ==> s[g..h][k] == s[g + k];
        var v: int := DigitsValue(s[g..h]);
        Exponent(if signed && s[e + 1] == '-' then -v else v, h)
    else Exponent(0, e)
  }

  /**
   * The value of a PHP numeric string: optional leading whitespace, an
   * optional sign, digits with an optional decimal point (at least one
   * digit in all), an optional exponent, optional trailing whitespace, and
   * nothing else.  `None` when `s` is not numeric.
   */
  function Parse(s: string): Option<Decimal>
  {
    var a := SpacesEnd(s, 0);
    var signed := a < |s| && (s[a] == '+' || s[a] == '-');
    var b := if signed then a + 1 else a;
    var c := DigitsEnd(s, b);
    var d := if c < |s| && s[c] == '.' then c + 1 else c;
    var e := DigitsEnd(s, d);
    if c - b + (e - d) == 0 then None
    else
      var x := ExponentAt(s, e);
      if SpacesEnd(s, x.end) != |s| then None
      else
        DigitsJoin(s, b, c, d, e);
        var m: int := DigitsValue(s[b..c] + s[d..e]);
        Some(Decimal(if signed && s[a] == '-' then -m else m, x.value - (e - d)))
  }

  /** Two runs of digits of `s`, put together, are digits. */
  lemma DigitsJoin(s: string, b: nat, c: nat, d: nat, e: nat)
    requires b <= c <= d <= e <= |s|
    requires forall k :: b <= k < c ==> IsDigit(s[k])
    requires forall k :: d <= k < e ==> IsDigit(s[k])
    ensures forall k :: 0 <= k < |s[b..c] + s[d..e]| ==> IsDigit((s[b..c] + s[d..e])[k])
  {
    var t := s[b..c] + s[d..e];
    forall k | 0 <= k < |t|
      ensures IsDigit(t[k])
    {
      if k < c - b {
        assert t[k] == s[b + k];
      } else {
        assert t[k] == s[d + k - (c - b)];
      }
    }
  }

  predicate IsNumeric(s: string)
  {
    Parse(s).Some?
  }

  /** PHP 8 `$a == $b` for two strings. */
  predicate LooseEquals(a: string, b: string)
  {
    match (Parse(a), Parse(b))
    case (Some(x), Some(y)) => SameValue(x, y)
    case _ => a == b
  }

  /** The canonical decimal spelling of a natural number, as PHP prints an int. */
  function Render(n: nat): (s: string)
    ensures |s| > 0 && forall k :: 0 <= k < |s| ==> IsDigit(s[k])
  {
    var last := [(('0' as int) + n % 10) as char];
    if n < 10 then last else Render(n / 10) + last
  }

  lemma {:induction false} DigitsValueOfRender(n: nat)
    ensures DigitsValue(Render(n)) == n
  {
    var s := Render(n);
    assert s[..|s| - 1] == if n < 10 then [] else Render(n / 10);
    if n >= 10 {
      DigitsValueOfRender(n / 10);
    }
  }

  lemma {:induction false} DigitsEndOfDigits(s: string, i: nat)
    requires i <= |s|
    requires forall k :: i <= k < |s| ==> IsDigit(s[k])
    ensures DigitsEnd(s, i) == |s|
    decreases |s| - i
  {
    if i < |s| {
      DigitsEndOfDigits(s, i + 1);
    }
  }

  /** Every natural number printed canonically is a numeric string denoting that number. */
  lemma RenderRoundTrip(n: nat)
    ensures Parse(Render(n)) == Some(Decimal(n, 0))
  {
    var s := Render(n);
    DigitsEndOfDigits(s, 0);
    assert s[0..|s|] + s[|s|..|s|] == s;
    DigitsValueOfRender(n);
  }

  /** A single digit is a numeric string denoting its value. */
  lemma ParseDigit(s: string)
    requires |s| == 1 && IsDigit(s[0])
    ensures Parse(s) == Some(Decimal(s[0] as int - '0' as int, 0))
  {
    assert SpacesEnd(s, 0) == 0;
    DigitsEndOfDigits(s, 0);
    assert DigitsEnd(s, 1) == 1;
    assert ExponentAt(s, 1) == Exponent(0, 1);
    assert SpacesEnd(s, 1) == 1;
    assert s[0..1] + s[1..1] == s;
    assert s[..0] == [];
    assert DigitsValue(s) == s[0] as int - '0' as int;
  }

  /** A decimal denotes at most one integer. */
  lemma SameValueUnique(x: Decimal, a: int, b: int)
    requires SameValue(x, Decimal(a, 0)) && SameValue(x, Decimal(b, 0))
    ensures a == b
  {
    if x.exp <= 0 {
      var p := Pow10(0 - x.exp);
      assert a * p == b * p;
      assert (a - b) * p == 0;
    }
  }

  /** Against a non-numeric string, loose comparison is plain equality. */
  lemma LooseEqualsNonNumeric(a: string, b: string)
    requires !IsNumeric(b)
    ensures LooseEquals(a, b) <==> a == b
  {
  }

  /** Denoting the same number does not depend on which side is written first. */
  lemma SameValueSymmetric(x: Decimal, y: Decimal)
    ensures SameValue(x, y) <==> SameValue(y, x)
  {
    assert Pow10(0) == 1;
  }

  /** Loose comparison is symmetric, whether it compares numbers or bytes. */
  lemma LooseEqualsSymmetric(a: string, b: string)
    ensures LooseEquals(a, b) <==> LooseEquals(b, a)
  {
    if IsNumeric(a) && IsNumeric(b) {
      SameValueSymmetric(Parse(a).value, Parse(b).value);
    }
  }

  /** Two canonically printed naturals compare loosely equal exactly when they are the same number. */
  lemma RenderLooseEquals(n: nat, m: nat)
    ensures LooseEquals(Render(n), Render(m)) <==> n == m
  {
    RenderRoundTrip(n);
    RenderRoundTrip(m);
    assert Pow10(0) == 1;
  }

  /** A string that starts with a letter is not numeric. */
  lemma LetterFirstNotNumeric(s: string)
    requires |s| > 0 && ('a' <= s[0] <= 'z' || 'A' <= s[0] <= 'Z')
    ensures !IsNumeric(s)
  {
    assert SpacesEnd(s, 0) == 0;
    assert DigitsEnd(s, 0) == 0;
  }
}
