/**
 * The three answer validators of the installer (installer/Script.php,
 * `isValidNamespace`, `isValidName`, `isValidPackage`), written as explicit
 * character predicates and proved equal to the PCRE patterns the source uses.
 */
module Validators {
  import opened Pcre

  const Lower := Range('a', 'z')
  const Upper := Range('A', 'Z')
  const Digit := Range('0', '9')
  const Underscore := Range('_', '_')
  const HighByte := Range('\U{7F}', '\U{FF}')
  const Backslash := Range('\\', '\\')

  /** `[a-zA-Z_\x7f-\xff]` */
  const NamespaceHeadClass: seq<Range> := [Lower, Upper, Underscore, HighByte]
  /** `[a-zA-Z0-9_\x7f-\xff\\]` */
  const NamespaceInnerClass: seq<Range> := [Lower, Upper, Digit, Underscore, HighByte, Backslash]
  /** `[a-zA-Z0-9_\x7f-\xff]` */
  const NamespaceTailClass: seq<Range> := [Lower, Upper, Digit, Underscore, HighByte]
  /** `\w` in the C locale */
  const WordClass: seq<Range> := [Lower, Upper, Digit, Underscore]
  /** `[a-z0-9_.-]` */
  const PackageClass: seq<Range> := [Lower, Digit, Underscore, Range('.', '.'), Range('-', '-')]

  /** `/^[a-zA-Z_\x7f-\xff][a-zA-Z0-9_\x7f-\xff\\]*[a-zA-Z0-9_\x7f-\xff]$/` */
  const NamespacePattern: Re :=
    Cat(Class(NamespaceHeadClass), Cat(Star(Class(NamespaceInnerClass)), Class(NamespaceTailClass)))
  /** `/^\w+$/` */
  const NamePattern: Re := Plus(Class(WordClass))
  /** `#[a-z0-9_.-]+/[a-z0-9_.-]+#` */
  const PackagePattern: Re := Cat(Plus(Class(PackageClass)), Cat(Literal('/'), Plus(Class(PackageClass))))

  predicate IsNamespaceHead(c: char)
  {
    'a' <= c <= 'z' || 'A' <= c <= 'Z' || c == '_' || '\U{7F}' <= c <= '\U{FF}'
  }

  predicate IsNamespaceTail(c: char)
  {
    IsNamespaceHead(c) || '0' <= c <= '9'
  }

  predicate IsWordChar(c: char)
  {
    'a' <= c <= 'z' || 'A' <= c <= 'Z' || '0' <= c <= '9' || c == '_'
  }

  predicate IsPackageChar(c: char)
  {
    'a' <= c <= 'z' || '0' <= c <= '9' || c == '_' || c == '.' || c == '-'
  }

  /** At least two characters; a head character first, a tail character last, tail characters or backslashes between. */
  predicate IsNamespaceBody(s: string)
  {
    && |s| >= 2
    && IsNamespaceHead(s[0])
    && IsNamespaceTail(s[|s| - 1])
    && forall i :: 0 < i < |s| - 1 ==> IsNamespaceTail(s[i]) || s[i] == '\\'
  }

  /** One or more word characters. */
  predicate IsNameBody(s: string)
  {
    |s| > 0 && forall i :: 0 <= i < |s| ==> IsWordChar(s[i])
  }

  predicate EndsWithNewline(s: string)
  {
    |s| > 0 && s[|s| - 1] == '\n'
  }

  /** `isValidNamespace`: the body, optionally followed by the one newline PCRE's `$` lets through. */
  predicate IsValidNamespace(s: string)
  {
    IsNamespaceBody(s) || (EndsWithNewline(s) && IsNamespaceBody(s[..|s| - 1]))
  }

  /** `isValidName`, used for both the application name and the server name. */
  predicate IsValidName(s: string)
  {
    IsNameBody(s) || (EndsWithNewline(s) && IsNameBody(s[..|s| - 1]))
  }

  /** `isValidPackage`: somewhere a slash has a package character on each side. */
  predicate IsValidPackage(s: string)
  {
    exists p :: 1 <= p < |s| - 1 && s[p] == '/' && IsPackageChar(s[p - 1]) && IsPackageChar(s[p + 1])
  }

  // Each bracket expression of the source admits exactly the characters of its predicate.

  lemma NamespaceHeadClassIs(c: char)
    ensures InClass(c, NamespaceHeadClass) <==> IsNamespaceHead(c)
  {
    var cls := NamespaceHeadClass;
    if InClass(c, cls) {
      var i :| 0 <= i < |cls| && InRange(c, cls[i]);
      if i == 0 {} else if i == 1 {} else if i == 2 {} else {}
    }
    if IsNamespaceHead(c) {
      if 'a' <= c <= 'z' { assert InRange(c, cls[0]); }
      else if 'A' <= c <= 'Z' { assert InRange(c, cls[1]); }
      else if c == '_' { assert InRange(c, cls[2]); }
      else { assert InRange(c, cls[3]); }
    }
  }

  lemma NamespaceTailClassIs(c: char)
    ensures InClass(c, NamespaceTailClass) <==> IsNamespaceTail(c)
  {
    var cls := NamespaceTailClass;
    if InClass(c, cls) {
      var i :| 0 <= i < |cls| && InRange(c, cls[i]);
      if i == 0 {} else if i == 1 {} else if i == 2 {} else if i == 3 {} else {}
    }
    if IsNamespaceTail(c) {
      if 'a' <= c <= 'z' { assert InRange(c, cls[0]); }
      else if 'A' <= c <= 'Z' { assert InRange(c, cls[1]); }
      else if '0' <= c <= '9' { assert InRange(c, cls[2]); }
      else if c == '_' { assert InRange(c, cls[3]); }
      else { assert InRange(c, cls[4]); }
    }
  }

  lemma NamespaceInnerClassIs(c: char)
    ensures InClass(c, NamespaceInnerClass) <==> IsNamespaceTail(c) || c == '\\'
  {
    var cls := NamespaceInnerClass;
    if InClass(c, cls) {
      var i :| 0 <= i < |cls| && InRange(c, cls[i]);
      if i == 0 {} else if i == 1 {} else if i == 2 {} else if i == 3 {} else if i == 4 {} else {}
    }
    if IsNamespaceTail(c) || c == '\\' {
      if 'a' <= c <= 'z' { assert InRange(c, cls[0]); }
      else if 'A' <= c <= 'Z' { assert InRange(c, cls[1]); }
      else if '0' <= c <= '9' { assert InRange(c, cls[2]); }
      else if c == '_' { assert InRange(c, cls[3]); }
      else if c == '\\' { assert InRange(c, cls[5]); }
      else { assert InRange(c, cls[4]); }
    }
  }

  lemma WordClassIs(c: char)
    ensures InClass(c, WordClass) <==> IsWordChar(c)
  {
    var cls := WordClass;
    if InClass(c, cls) {
      var i :| 0 <= i < |cls| && InRange(c, cls[i]);
      if i == 0 {} else if i == 1 {} else if i == 2 {} else {}
    }
    if IsWordChar(c) {
      if 'a' <= c <= 'z' { assert InRange(c, cls[0]); }
      else if 'A' <= c <= 'Z' { assert InRange(c, cls[1]); }
      else if '0' <= c <= '9' { assert InRange(c, cls[2]); }
      else { assert InRange(c, cls[3]); }
    }
  }

  lemma PackageClassIs(c: char)
    ensures InClass(c, PackageClass) <==> IsPackageChar(c)
  {
    var cls := PackageClass;
    if InClass(c, cls) {
      var i :| 0 <= i < |cls| && InRange(c, cls[i]);
      if i == 0 {} else if i == 1 {} else if i == 2 {} else if i == 3 {} else {}
    }
    if IsPackageChar(c) {
      if 'a' <= c <= 'z' { assert InRange(c, cls[0]); }
      else if '0' <= c <= '9' { assert InRange(c, cls[1]); }
      else if c == '_' { assert InRange(c, cls[2]); }
      else if c == '.' { assert InRange(c, cls[3]); }
      else { assert InRange(c, cls[4]); }
    }
  }

  lemma NamespaceBodyIsPattern(s: string)
    ensures IsNamespaceBody(s) <==> Lang(NamespacePattern, s)
  {
    var head, inner, tail := Class(NamespaceHeadClass), Star(Class(NamespaceInnerClass)), Class(NamespaceTailClass);
    if Lang(NamespacePattern, s) {
      var k :| 0 <= k <= |s| && Lang(head, s[..k]) && Lang(Cat(inner, tail), s[k..]);
      assert k == 1;
      var t := s[1..];
      var m :| 0 <= m <= |t| && Lang(inner, t[..m]) && Lang(tail, t[m..]);
      assert m == |t| - 1;
      StarOfClass(NamespaceInnerClass, t[..m]);
      assert s[..k][0] == s[0];
      NamespaceHeadClassIs(s[0]);
      assert t[m..][0] == s[|s| - 1];
      NamespaceTailClassIs(s[|s| - 1]);
      forall i | 0 < i < |s| - 1
        ensures IsNamespaceTail(s[i]) || s[i] == '\\'
      {
        assert t[..m][i - 1] == s[i];
        NamespaceInnerClassIs(s[i]);
      }
    }
    if IsNamespaceBody(s) {
      var t := s[1..];
      var m := |t| - 1;
      NamespaceHeadClassIs(s[0]);
      assert s[..1][0] == s[0];
      assert Lang(head, s[..1]);
      NamespaceTailClassIs(s[|s| - 1]);
      assert t[m..][0] == s[|s| - 1];
      assert Lang(tail, t[m..]);
      forall i | 0 <= i < |t[..m]|
        ensures InClass(t[..m][i], NamespaceInnerClass)
      {
        assert t[..m][i] == s[i + 1];
        NamespaceInnerClassIs(s[i + 1]);
      }
      StarOfClass(NamespaceInnerClass, t[..m]);
      assert Lang(Cat(inner, tail), t);
    }
  }

  /** `isValidNamespace` is exactly `preg_match` of the source's namespace pattern. */
  lemma NamespaceMatchesPattern(s: string)
    ensures IsValidNamespace(s) <==> FullMatch(NamespacePattern, s)
  {
    NamespaceBodyIsPattern(s);
    if |s| > 0 {
      NamespaceBodyIsPattern(s[..|s| - 1]);
    }
  }

  lemma NameBodyIsPattern(s: string)
    ensures IsNameBody(s) <==> Lang(NamePattern, s)
  {
    PlusOfClass(WordClass, s);
    forall i | 0 <= i < |s| {
      WordClassIs(s[i]);
    }
  }

  /** `isValidName` is exactly `preg_match('/^\w+$/', s)`. */
  lemma NameMatchesPattern(s: string)
    ensures IsValidName(s) <==> FullMatch(NamePattern, s)
  {
    NameBodyIsPattern(s);
    if |s| > 0 {
      NameBodyIsPattern(s[..|s| - 1]);
    }
  }

  /** A string in the package pattern's language has a slash with a package character on each side. */
  lemma PackageLangHasSlash(t: string) returns (k: nat)
    requires Lang(PackagePattern, t)
    ensures 1 <= k < |t| - 1 && t[k] == '/' && IsPackageChar(t[k - 1]) && IsPackageChar(t[k + 1])
  {
    var seg := Plus(Class(PackageClass));
    var a := CatSplit(seg, Cat(Literal('/'), seg), t);
    var u := t[a..];
    var m := CatSplit(Literal('/'), seg, u);
    LiteralIs('/', u[..m]);
    PlusOfClass(PackageClass, t[..a]);
    PlusOfClass(PackageClass, u[m..]);
    k := a;
    assert u[..m][0] == t[k];
    assert t[..a][a - 1] == t[k - 1];
    PackageClassIs(t[k - 1]);
    assert u[m..][0] == t[k + 1];
    PackageClassIs(t[k + 1]);
  }

  /** A match of the package pattern anywhere in `s` exhibits a slash with a package character on each side. */
  lemma PackageSearchFindsSlash(s: string)
    requires Search(PackagePattern, s)
    ensures IsValidPackage(s)
  {
    var i, j :| 0 <= i <= j <= |s| && Lang(PackagePattern, s[i..j]);
    var k := PackageLangHasSlash(s[i..j]);
    var p := i + k;
    assert s[i..j][k - 1] == s[p - 1] && s[i..j][k] == s[p] && s[i..j][k + 1] == s[p + 1];
  }

  /** A slash with a package character on each side is a match of the package pattern. */
  lemma SlashGivesPackageSearch(s: string)
    requires IsValidPackage(s)
    ensures Search(PackagePattern, s)
  {
    var seg := Plus(Class(PackageClass));
    var p :| 1 <= p < |s| - 1 && s[p] == '/' && IsPackageChar(s[p - 1]) && IsPackageChar(s[p + 1]);
    PackageClassIs(s[p - 1]);
    PackageClassIs(s[p + 1]);
    PlusOfClass(PackageClass, [s[p - 1]]);
    PlusOfClass(PackageClass, [s[p + 1]]);
    LiteralIs('/', [s[p]]);
    CatJoin(Literal('/'), seg, [s[p]], [s[p + 1]]);
    CatJoin(seg, Cat(Literal('/'), seg), [s[p - 1]], [s[p]] + [s[p + 1]]);
    assert s[p - 1..p + 2] == [s[p - 1]] + ([s[p]] + [s[p + 1]]);
  }

  /** `isValidPackage` is exactly the unanchored `preg_match` of the source's package pattern. */
  lemma PackageMatchesPattern(s: string)
    ensures IsValidPackage(s) <==> Search(PackagePattern, s)
  {
    if Search(PackagePattern, s) {
      PackageSearchFindsSlash(s);
    }
    if IsValidPackage(s) {
      SlashGivesPackageSearch(s);
    }
  }

  /**
   * What `isValidNamespace` rejects: anything shorter than two characters, a
   * leading or trailing backslash, and any character outside
   * `[A-Za-z0-9_\x7f-\xff\\]` other than the final newline `$` tolerates.
   */
  lemma NamespaceRejects(s: string)
    ensures |s| < 2 ==> !IsValidNamespace(s)
    ensures |s| > 0 && s[0] == '\\' ==> !IsValidNamespace(s)
    ensures |s| > 0 && s[|s| - 1] == '\\' ==> !IsValidNamespace(s)
    ensures (exists i :: 0 <= i < |s| - 1 && !IsNamespaceTail(s[i]) && s[i] != '\\') ==> !IsValidNamespace(s)
    ensures |s| > 0 && !IsNamespaceTail(s[|s| - 1]) && s[|s| - 1] != '\n' ==> !IsValidNamespace(s)
  {
  }

  /** Without a final newline, a valid namespace is exactly a head character, inner characters and a tail character. */
  lemma NamespaceShape(s: string)
    requires !EndsWithNewline(s)
    ensures IsValidNamespace(s) <==> IsNamespaceBody(s)
  {
  }

  /** Without a final newline, a valid name is exactly a non-empty run of word characters. */
  lemma NameShape(s: string)
    requires !EndsWithNewline(s)
    ensures IsValidName(s) <==> |s| > 0 && forall i :: 0 <= i < |s| ==> IsWordChar(s[i])
  {
  }

  /** The unanchored pattern accepts any string that contains `x/y` with non-empty package segments `x` and `y`. */
  lemma PackageAcceptsInfix(pre: string, x: string, y: string, post: string)
    requires |x| > 0 && |y| > 0
    requires forall i :: 0 <= i < |x| ==> IsPackageChar(x[i])
    requires forall i :: 0 <= i < |y| ==> IsPackageChar(y[i])
    ensures IsValidPackage(pre + x + "/" + y + post)
  {
    var s := pre + x + "/" + y + post;
    var p := |pre| + |x|;
    assert s[p - 1] == x[|x| - 1];
    assert s[p] == '/';
    assert s[p + 1] == y[0];
  }

  /**
   * No valid namespace, application name or server name contains a brace,
   * so no validated answer can spell a placeholder token.
   */
  lemma ValidAnswersBraceFree(s: string)
    requires IsValidNamespace(s) || IsValidName(s)
    ensures forall i :: 0 <= i < |s| ==> s[i] != '{'
  {
  }
}
