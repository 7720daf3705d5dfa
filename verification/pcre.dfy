/**
 * The fragment of PCRE that the installer's validators use: bracket
 * expressions made of character ranges, concatenation, `*` and `+`, the
 * anchors `^` and `$`, and an unanchored search.  This is the reference
 * semantics the executable validators are proved against.
 */
module Pcre {

  /** An inclusive range inside a bracket expression, such as `a-z`; a single character `c` is `c-c`. */
  datatype Range = Range(lo: char, hi: char)

  predicate InRange(c: char, r: Range)
  {
    r.lo <= c <= r.hi
  }

  /** `c` matches the bracket expression whose ranges are `cls`. */
  predicate InClass(c: char, cls: seq<Range>)
  {
    exists i :: 0 <= i < |cls| && InRange(c, cls[i])
  }

  datatype Re =
    | Class(cls: seq<Range>)
    | Cat(left: Re, right: Re)
    | Star(body: Re)

  /** `r+` */
  function Plus(r: Re): Re
  {
    Cat(r, Star(r))
  }

  /** A single literal character. */
  function Literal(c: char): Re
  {
    Class([Range(c, c)])
  }

  /** `s` belongs to the language of `r`. */
  ghost predicate Lang(r: Re, s: string)
    decreases r, |s|
  {
    match r
    case Class(cls) => |s| == 1 && InClass(s[0], cls)
    case Cat(a, b) => exists k :: 0 <= k <= |s| && Lang(a, s[..k]) && Lang(b, s[k..])
    case Star(b) => |s| == 0 || exists k :: 0 < k <= |s| && Lang(b, s[..k]) && Lang(r, s[k..])
  }

  /**
   * `preg_match('/^r$/', s)`.  Without the D modifier PCRE's `$` matches at
   * the very end of the subject and also just before a final newline.
   */
  ghost predicate FullMatch(r: Re, s: string)
  {
    || Lang(r, s)
    || (|s| > 0 && s[|s| - 1] == '\n' && Lang(r, s[..|s| - 1]))
  }

  /** `preg_match('#r#', s)`: the pattern matches somewhere in the subject. */
  ghost predicate Search(r: Re, s: string)
  {
    exists i, j :: 0 <= i <= j <= |s| && Lang(r, s[i..j])
  }

  /** A match of a concatenation splits into a match of each part. */
  lemma CatSplit(a: Re, b: Re, s: string) returns (k: nat)
    requires Lang(Cat(a, b), s)
    ensures k <= |s| && Lang(a, s[..k]) && Lang(b, s[k..])
  {
    k :| 0 <= k <= |s| && Lang(a, s[..k]) && Lang(b, s[k..]);
  }

  /** Matches of the two parts, put side by side, match the concatenation. */
  lemma CatJoin(a: Re, b: Re, s: string, t: string)
    requires Lang(a, s) && Lang(b, t)
    ensures Lang(Cat(a, b), s + t)
  {
    assert (s + t)[..|s|] == s && (s + t)[|s|..] == t;
  }

  /** A literal character matches exactly itself. */
  lemma LiteralIs(c: char, s: string)
    ensures Lang(Literal(c), s) <==> s == [c]
  {
    if s == [c] {
      assert InRange(s[0], [Range(c, c)][0]);
    }
  }

  /** `[...]*` matches exactly the strings all of whose characters are in the class. */
  lemma {:induction false} StarOfClass(cls: seq<Range>, s: string)
    ensures Lang(Star(Class(cls)), s) <==> forall i :: 0 <= i < |s| ==> InClass(s[i], cls)
    decreases |s|
  {
    if |s| > 0 {
      StarOfClass(cls, s[1..]);
      if Lang(Star(Class(cls)), s) {
        var k :| 0 < k <= |s| && Lang(Class(cls), s[..k]) && Lang(Star(Class(cls)), s[k..]);
        assert k == 1;
        forall i | 0 <= i < |s|
          ensures InClass(s[i], cls)
        {
          if i == 0 {
            assert s[..k][0] == s[0];
          } else {
            assert s[k..][i - 1] == s[i];
          }
        }
      }
      if forall i :: 0 <= i < |s| ==> InClass(s[i], cls) {
        assert forall i :: 0 <= i < |s[1..]| ==> s[1..][i] == s[i + 1];
        assert s[..1][0] == s[0];
        assert Lang(Class(cls), s[..1]) && Lang(Star(Class(cls)), s[1..]);
      }
    }
  }

  /** `[...]+` matches exactly the non-empty strings all of whose characters are in the class. */
  lemma PlusOfClass(cls: seq<Range>, s: string)
    ensures Lang(Plus(Class(cls)), s) <==> |s| > 0 && forall i :: 0 <= i < |s| ==> InClass(s[i], cls)
  {
    if Lang(Plus(Class(cls)), s) {
      var k :| 0 <= k <= |s| && Lang(Class(cls), s[..k]) && Lang(Star(Class(cls)), s[k..]);
      assert k == 1;
      StarOfClass(cls, s[k..]);
      forall i | 0 <= i < |s|
        ensures InClass(s[i], cls)
      {
        if i == 0 {
          assert s[..k][0] == s[0];
        } else {
          assert s[k..][i - 1] == s[i];
        }
      }
    }
    if |s| > 0 && forall i :: 0 <= i < |s| ==> InClass(s[i], cls) {
      StarOfClass(cls, s[1..]);
      assert forall i :: 0 <= i < |s[1..]| ==> s[1..][i] == s[i + 1];
      assert s[..1][0] == s[0];
      assert Lang(Class(cls), s[..1]) && Lang(Star(Class(cls)), s[1..]);
    }
  }
}
