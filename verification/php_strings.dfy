/**
 * The PHP string functions the installer relies on: `strtr` with an array
 * of replacement pairs, `str_replace` with one search string, and `rtrim`
 * with a character list.
 */
module PhpStrings {
  import opened Wrappers

  predicate IsPrefix(k: string, s: string)
  {
    |k| <= |s| && s[..|k|] == k
  }

  /**
   * The longest non-empty key of `pairs` that is a prefix of `s` and at
   * most `n` long.  `strtr` tries this at every position; the empty key is
   * ignored.
   */
  function LongestKeyAt(s: string, pairs: map<string, string>, n: nat): (r: Option<string>)
    requires n <= |s|
    ensures r.Some? ==> r.value in pairs && 0 < |r.value| <= n && IsPrefix(r.value, s)
    ensures r.Some? ==> forall m :: |r.value| < m <= n ==> s[..m] !in pairs
    ensures r.None? ==> forall m :: 0 < m <= n ==> s[..m] !in pairs
  {
    if n == 0 then None
    else if s[..n] in pairs then Some(s[..n])
    else LongestKeyAt(s, pairs, n - 1)
  }

  /**
   * `strtr($s, $pairs)`: one left-to-right pass; at each position the
   * longest matching key is replaced by its value and the scan resumes
   * after the key, so replaced text is never looked at again; where no key
   * matches, one character is copied.
   */
  function Strtr(s: string, pairs: map<string, string>): string
    decreases |s|
  {
    if |s| == 0 then ""
    else match LongestKeyAt(s, pairs, |s|)
      case Some(k) => pairs[k] + Strtr(s[|k|..], pairs)
      case None => [s[0]] + Strtr(s[1..], pairs)
  }

  /** The same pass written as the loop PHP runs, carrying the output built so far. */
  method StrtrLoop(s: string, pairs: map<string, string>) returns (out: string)
    ensures out == Strtr(s, pairs)
  {
    out := "";
    var i := 0;
    while i < |s|
      invariant 0 <= i <= |s|
      invariant out + Strtr(s[i..], pairs) == Strtr(s, pairs)
      decreases |s| - i
    {
      var rest := s[i..];
      match LongestKeyAt(rest, pairs, |rest|)
      case Some(k) =>
        assert rest[|k|..] == s[i + |k|..];
        assert Strtr(rest, pairs) == pairs[k] + Strtr(s[i + |k|..], pairs);
        assert (out + pairs[k]) + Strtr(s[i + |k|..], pairs) == out + (pairs[k] + Strtr(s[i + |k|..], pairs));
        out := out + pairs[k];
        i := i + |k|;
      case None =>
        assert rest[1..] == s[i + 1..];
        assert Strtr(rest, pairs) == [s[i]] + Strtr(s[i + 1..], pairs);
        assert (out + [s[i]]) + Strtr(s[i + 1..], pairs) == out + ([s[i]] + Strtr(s[i + 1..], pairs));
        out := out + [s[i]];
        i := i + 1;
    }
  }

  /** Keys all start with `c` and no key is a proper prefix of another. */
  predicate PrefixFreeKeys(pairs: map<string, string>, c: char)
  {
    && (forall k :: k in pairs ==> |k| > 0 && k[0] == c)
    && (forall k, k' :: k in pairs && k' in pairs && IsPrefix(k, k') ==> k == k')
  }

  /** Text free of the keys' first character passes through unchanged ahead of whatever follows. */
  lemma {:induction false} StrtrPlainPrefix(t: string, rest: string, pairs: map<string, string>, c: char)
    requires forall k :: k in pairs ==> |k| > 0 && k[0] == c
    requires forall i :: 0 <= i < |t| ==> t[i] != c
    ensures Strtr(t + rest, pairs) == t + Strtr(rest, pairs)
    decreases |t|
  {
    if |t| > 0 {
      var s := t + rest;
      assert s[0] == t[0];
      assert LongestKeyAt(s, pairs, |s|).None?;
      assert s[1..] == t[1..] + rest;
      StrtrPlainPrefix(t[1..], rest, pairs, c);
      calc {
        Strtr(s, pairs);
        [s[0]] + Strtr(s[1..], pairs);
        [t[0]] + (t[1..] + Strtr(rest, pairs));
        { assert [t[0]] + t[1..] == t; }
        t + Strtr(rest, pairs);
      }
    } else {
      assert t + rest == rest;
    }
  }

  /** Content without the keys' first character is returned unchanged. */
  lemma StrtrIdentity(s: string, pairs: map<string, string>, c: char)
    requires forall k :: k in pairs ==> |k| > 0 && k[0] == c
    requires forall i :: 0 <= i < |s| ==> s[i] != c
    ensures Strtr(s, pairs) == s
  {
    StrtrPlainPrefix(s, "", pairs, c);
    assert s + "" == s;
  }

  /** Every key is longer than one character, starts with `c` and has its second character in `second`. */
  predicate KeysOpen(pairs: map<string, string>, c: char, second: set<char>)
  {
    forall k :: k in pairs ==> |k| > 1 && k[0] == c && k[1] in second
  }

  /**
   * Every `c` in `t` is followed, inside `t`, by a character that is no
   * key's second character, so no key can start anywhere in `t`.
   */
  predicate Inert(t: string, c: char, second: set<char>)
  {
    forall i :: 0 <= i < |t| && t[i] == c ==> i + 1 < |t| && t[i + 1] !in second
  }

  /** Text without `c` at all is inert. */
  lemma AbsentInert(t: string, c: char, second: set<char>)
    requires forall i :: 0 <= i < |t| ==> t[i] != c
    ensures Inert(t, c, second)
  {
  }

  /** Inert texts put together stay inert. */
  lemma InertConcat(a: string, b: string, c: char, second: set<char>)
    requires Inert(a, c, second) && Inert(b, c, second)
    ensures Inert(a + b, c, second)
  {
    var s := a + b;
    forall i | 0 <= i < |s| && s[i] == c
      ensures i + 1 < |s| && s[i + 1] !in second
    {
      if i < |a| {
        assert s[i] == a[i] && s[i + 1] == a[i + 1];
      } else {
        assert s[i] == b[i - |a|] && s[i + 1] == b[i + 1 - |a|];
      }
    }
  }

  /** No key is found at the front of text whose first character cannot open one. */
  lemma NoKeyAtInertFront(s: string, pairs: map<string, string>, c: char, second: set<char>)
    requires |s| > 0 && KeysOpen(pairs, c, second)
    requires s[0] == c ==> |s| > 1 && s[1] !in second
    ensures LongestKeyAt(s, pairs, |s|).None?
  {
    forall k | k in pairs
      ensures !IsPrefix(k, s)
    {
      if |k| <= |s| {
        if s[0] != c {
          assert s[..|k|][0] != k[0];
        } else {
          assert s[..|k|][1] != k[1];
        }
      }
    }
  }

  /** Inert text passes through unchanged ahead of whatever follows. */
  lemma {:induction false} StrtrInertPrefix(t: string, rest: string, pairs: map<string, string>, c: char, second: set<char>)
    requires KeysOpen(pairs, c, second) && Inert(t, c, second)
    ensures Strtr(t + rest, pairs) == t + Strtr(rest, pairs)
    decreases |t|
  {
    if |t| > 0 {
      var s := t + rest;
      assert s[0] == t[0] && (t[0] == c ==> s[1] == t[1]);
      NoKeyAtInertFront(s, pairs, c, second);
      assert s[1..] == t[1..] + rest;
      assert Inert(t[1..], c, second) by {
        forall i | 0 <= i < |t[1..]| && t[1..][i] == c
          ensures i + 1 < |t[1..]| && t[1..][i + 1] !in second
        {
          assert t[1..][i] == t[i + 1];
        }
      }
      StrtrInertPrefix(t[1..], rest, pairs, c, second);
      calc {
        Strtr(s, pairs);
        [s[0]] + Strtr(s[1..], pairs);
        [t[0]] + (t[1..] + Strtr(rest, pairs));
        { assert [t[0]] + t[1..] == t; }
        t + Strtr(rest, pairs);
      }
    } else {
      assert t + rest == rest;
    }
  }

  /** With prefix-free keys, a key at the front is replaced by its value and the value is not rescanned. */
  lemma StrtrKeyPrefix(k: string, rest: string, pairs: map<string, string>, c: char)
    requires PrefixFreeKeys(pairs, c)
    requires k in pairs
    ensures Strtr(k + rest, pairs) == pairs[k] + Strtr(rest, pairs)
  {
    var s := k + rest;
    assert s[..|k|] == k;
    var r := LongestKeyAt(s, pairs, |s|);
    assert r.Some?;
    assert IsPrefix(r.value, s);
    assert |r.value| >= |k|;
    assert r.value[..|k|] == s[..|k|];
    assert IsPrefix(k, r.value);
    assert r.value == k;
    assert s[|k|..] == rest;
  }

  /** One key between inert texts becomes its value. */
  lemma StrtrOneKey(before: string, k: string, after: string, pairs: map<string, string>, c: char, second: set<char>)
    requires PrefixFreeKeys(pairs, c) && KeysOpen(pairs, c, second) && k in pairs
    requires Inert(before, c, second) && Inert(after, c, second)
    ensures Strtr(before + k + after, pairs) == before + pairs[k] + after
  {
    assert before + k + after == before + (k + after);
    StrtrInertPrefix(before, k + after, pairs, c, second);
    StrtrKeyPrefix(k, after, pairs, c);
    StrtrInertPrefix(after, "", pairs, c, second);
    assert after + "" == after;
  }

  /** A table with a single key of two or more characters is prefix-free and opens with that key's first two characters. */
  lemma SingleKeyPrefixFree(k: string, v: string)
    requires |k| > 1
    ensures PrefixFreeKeys(map[k := v], k[0]) && KeysOpen(map[k := v], k[0], {k[1]})
  {
  }

  /** A template: literal text and keys of a replacement table, in order. */
  datatype Piece = Text(text: string) | Key(key: string)

  /** One piece as written. */
  function PieceSource(p: Piece): string
  {
    match p case Text(t) => t case Key(k) => k
  }

  /** One piece with its key replaced by its value, if it has one. */
  function PieceFilled(p: Piece, pairs: map<string, string>): string
  {
    match p case Text(t) => t case Key(k) => if k in pairs then pairs[k] else k
  }

  /** The template as written, keys spelled out. */
  function Source(ps: seq<Piece>): string
  {
    if |ps| == 0 then "" else PieceSource(ps[0]) + Source(ps[1..])
  }

  /** The template with every key that has a value replaced by it. */
  function Filled(ps: seq<Piece>, pairs: map<string, string>): string
  {
    if |ps| == 0 then "" else PieceFilled(ps[0], pairs) + Filled(ps[1..], pairs)
  }

  /** Every text piece is inert and every key piece is in the table. */
  predicate Fits(ps: seq<Piece>, pairs: map<string, string>, c: char, second: set<char>)
  {
    forall i :: 0 <= i < |ps| ==>
      match ps[i]
      case Text(t) => Inert(t, c, second)
      case Key(k) => k in pairs
  }

  /**
   * With prefix-free keys that all start with `c`, `strtr` over a template
   * whose text is inert (each `c` in it followed by a character no key has
   * second, as a code brace followed by a line break is) replaces exactly
   * the keys written in it, each by its value, and leaves the inserted
   * values alone even when they spell another key.
   */
  lemma {:induction false} StrtrFillsTemplate(ps: seq<Piece>, pairs: map<string, string>, c: char, second: set<char>)
    requires PrefixFreeKeys(pairs, c) && KeysOpen(pairs, c, second) && Fits(ps, pairs, c, second)
    ensures Strtr(Source(ps), pairs) == Filled(ps, pairs)
    decreases |ps|
  {
    if |ps| == 0 {
      assert Source(ps) == "";
    } else {
      var rest := Source(ps[1..]);
      assert Fits(ps[1..], pairs, c, second) by {
        forall i | 0 <= i < |ps[1..]| ensures ps[1..][i] == ps[i + 1] { }
      }
      StrtrFillsTemplate(ps[1..], pairs, c, second);
      match ps[0]
      case Text(t) =>
        assert Inert(t, c, second) by { assert Fits(ps, pairs, c, second); assert ps[0] == Text(t); }
        StrtrInertPrefix(t, rest, pairs, c, second);
      case Key(k) =>
        assert k in pairs by { assert ps[0] == Key(k); }
        StrtrKeyPrefix(k, rest, pairs, c);
    }
  }

  /**
   * `str_replace($search, $replace, $s)` for a single search string: the
   * same left-to-right, non-overlapping, non-rescanning pass as `strtr`
   * with one pair; an empty search string changes nothing.
   */
  function StrReplace(search: string, replace: string, s: string): string
  {
    if |search| == 0 then s else Strtr(s, map[search := replace])
  }

  predicate Occurs(k: string, s: string)
  {
    exists i :: 0 <= i <= |s| && IsPrefix(k, s[i..])
  }

  /**
   * Removing `k` from `t + k`, where `k` does not occur in `t` and its first
   * character does not recur in it, gives back `t`.
   */
  lemma {:induction false} StrReplaceRemovesSuffix(t: string, k: string)
    requires |k| > 0 && !Occurs(k, t)
    requires forall i :: 0 < i < |k| ==> k[i] != k[0]
    ensures StrReplace(k, "", t + k) == t
    decreases |t|
  {
    var pairs := map[k := ""];
    var s := t + k;
    if |t| == 0 {
      assert s == k + "";
      StrtrKeyPrefix(k, "", pairs, k[0]);
      assert Strtr("", pairs) == "";
    } else {
      if |k| <= |t| {
        assert t[0..] == t;
        assert s[..|k|] == t[..|k|] != k;
      } else {
        assert s[..|k|][|t|] == k[0] != k[|t|];
      }
      assert LongestKeyAt(s, pairs, |s|).None?;
      forall i | 0 <= i <= |t[1..]|
        ensures !IsPrefix(k, t[1..][i..])
      {
        assert t[1..][i..] == t[i + 1..];
      }
      assert s[1..] == t[1..] + k;
      StrReplaceRemovesSuffix(t[1..], k);
      calc {
        Strtr(s, pairs);
        [s[0]] + Strtr(s[1..], pairs);
        [t[0]] + t[1..];
        t;
      }
    }
  }

  /** `rtrim($s, $chars)`: drops the longest suffix made only of characters in `chars`. */
  function RTrim(s: string, chars: set<char>): (r: string)
    ensures IsPrefix(r, s)
    ensures forall i :: |r| <= i < |s| ==> s[i] in chars
    ensures |r| == 0 || r[|r| - 1] !in chars
    decreases |s|
  {
    if |s| > 0 && s[|s| - 1] in chars then RTrim(s[..|s| - 1], chars) else s
  }
}
