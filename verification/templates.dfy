/**
 * The text the installer rewrites on disk: the placeholder files filled
 * with the user's answers, the config file produced from its example, and
 * the project root the installer works under.  Reading and writing the
 * files is left to the caller; these functions map old content to new.
 */
module Templates {
  import opened Wrappers
  import opened Protocols
  import opened PhpStrings
  import opened Installer

  /** The four placeholders a template may contain. */
  datatype Placeholder = NamespaceName | AppName | ServerName | ProtocolName

  /** How each placeholder is spelled in a template. */
  function Token(ph: Placeholder): string
  {
    match ph
    case NamespaceName => "{namespace}"
    case AppName => "{AppName}"
    case ServerName => "{ServerName}"
    case ProtocolName => "{protocol}"
  }

  /** What `{protocol}` becomes: `tars` for the tars protocol and a word no template tests for otherwise. */
  function ProtocolToken(p: Protocol): string
  {
    if Name(p) == "tars" then "tars" else "not_tars"
  }

  /** The replacement table `replacePlaceHolder` hands to `strtr`. */
  function Placeholders(c: Choices): map<string, string>
  {
    map[
      Token(NamespaceName) := c.namespace,
      Token(AppName) := c.appName,
      Token(ServerName) := c.serverName,
      Token(ProtocolName) := ProtocolToken(c.protocol)
    ]
  }

  /** The answer each placeholder stands for. */
  function Answer(ph: Placeholder, c: Choices): string
  {
    match ph
    case NamespaceName => c.namespace
    case AppName => c.appName
    case ServerName => c.serverName
    case ProtocolName => ProtocolToken(c.protocol)
  }

  /** `replacePlaceHolder`, for the content of one file. */
  function ReplacePlaceholders(content: string, c: Choices): string
  {
    Strtr(content, Placeholders(c))
  }

  /** `{protocol}` reads `tars` exactly when the tars protocol was chosen. */
  lemma ProtocolTokenSpec(p: Protocol)
    ensures ProtocolToken(p) == "tars" <==> p == Tars
    ensures ProtocolToken(p) != Token(ProtocolName)
  {
  }

  /** The placeholder table maps each token to its answer, and nothing else. */
  lemma PlaceholdersSpec(c: Choices)
    ensures forall ph: Placeholder :: Token(ph) in Placeholders(c) && Placeholders(c)[Token(ph)] == Answer(ph, c)
    ensures forall k :: k in Placeholders(c) <==> exists ph: Placeholder :: k == Token(ph)
  {
    forall k | k in Placeholders(c)
      ensures exists ph: Placeholder :: k == Token(ph)
    {
      if k == "{namespace}" { assert k == Token(NamespaceName); }
      else if k == "{AppName}" { assert k == Token(AppName); }
      else if k == "{ServerName}" { assert k == Token(ServerName); }
      else { assert k == Token(ProtocolName); }
    }
  }

  /** The characters that follow the opening brace in the four tokens. */
  const TokenSeconds: set<char> := {'n', 'A', 'S', 'p'}

  /** No token can start anywhere in `t`: each brace in it is followed by a character no token has second. */
  predicate BracesInert(t: string)
  {
    Inert(t, '{', TokenSeconds)
  }

  /** All tokens open with a brace followed by one of `TokenSeconds`, and none is a prefix of another. */
  lemma PlaceholdersPrefixFree(c: Choices)
    ensures PrefixFreeKeys(Placeholders(c), '{')
    ensures KeysOpen(Placeholders(c), '{', TokenSeconds)
  {
    var pairs := Placeholders(c);
    forall k, k' | k in pairs && k' in pairs && IsPrefix(k, k')
      ensures k == k'
    {
      assert k[|k| - 1] == '}';
      assert forall i :: 0 <= i < |k'| - 1 ==> k'[i] != '}';
      assert k'[..|k|][|k| - 1] == '}';
    }
  }

  /** A template over the placeholders: plain text and placeholder tokens. */
  datatype Part = Plain(text: string) | Hole(ph: Placeholder)

  /** A template part as a piece of the generic `strtr` template. */
  function AsPieces(parts: seq<Part>): (ps: seq<Piece>)
    ensures |ps| == |parts|
  {
    seq(|parts|, i requires 0 <= i < |parts| =>
      match parts[i] case Plain(t) => Text(t) case Hole(ph) => Key(Token(ph)))
  }

  /** The template as it sits in the file. */
  function Written(parts: seq<Part>): string
  {
    Source(AsPieces(parts))
  }

  /** What the template should read once the user's answers are in. */
  function Expected(parts: seq<Part>, c: Choices): string
  {
    if |parts| == 0 then ""
    else (match parts[0] case Plain(t) => t case Hole(ph) => Answer(ph, c)) + Expected(parts[1..], c)
  }

  /** No token can start in any plain text of the template. */
  predicate TextInert(parts: seq<Part>)
  {
    forall i :: 0 <= i < |parts| ==> parts[i].Plain? ==> BracesInert(parts[i].text)
  }

  /** Filling the placeholder table into a template gives the expected text. */
  lemma {:induction false} FilledIsExpected(parts: seq<Part>, c: Choices)
    ensures Filled(AsPieces(parts), Placeholders(c)) == Expected(parts, c)
    decreases |parts|
  {
    if |parts| > 0 {
      var ps := AsPieces(parts);
      var head := match parts[0] case Plain(t) => t case Hole(ph) => Answer(ph, c);
      assert PieceFilled(ps[0], Placeholders(c)) == head by {
        PlaceholdersSpec(c);
      }
      assert ps[1..] == AsPieces(parts[1..]);
      FilledIsExpected(parts[1..], c);
      assert Filled(ps, Placeholders(c)) == head + Filled(ps[1..], Placeholders(c));
    }
  }

  /**
   * `replacePlaceHolder` on a template in which every brace of the text is
   * followed by something no token continues with (code braces at the end
   * of a line, say): every placeholder is replaced by its answer in one
   * pass, and an answer that itself spells a token (a namespace
   * `{AppName}`, say) is left as typed.
   */
  lemma ReplaceFillsTemplate(parts: seq<Part>, c: Choices)
    requires TextInert(parts)
    ensures ReplacePlaceholders(Written(parts), c) == Expected(parts, c)
  {
    var ps := AsPieces(parts);
    PlaceholdersPrefixFree(c);
    PlaceholdersSpec(c);
    assert Fits(ps, Placeholders(c), '{', TokenSeconds) by {
      forall i | 0 <= i < |ps|
        ensures match ps[i]
          case Text(t) => Inert(t, '{', TokenSeconds)
          case Key(k) => k in Placeholders(c)
      {
        match parts[i]
        case Plain(t) =>
        case Hole(ph) =>
      }
    }
    StrtrFillsTemplate(ps, Placeholders(c), '{', TokenSeconds);
    FilledIsExpected(parts, c);
  }

  /** Content in which no token can start comes back unchanged. */
  lemma ReplaceKeepsInert(content: string, c: Choices)
    requires BracesInert(content)
    ensures ReplacePlaceholders(content, c) == content
  {
    PlaceholdersPrefixFree(c);
    StrtrInertPrefix(content, "", Placeholders(c), '{', TokenSeconds);
    assert content + "" == content;
  }

  /** A template of one placeholder between two texts in which no token can start. */
  lemma OneHole(before: string, ph: Placeholder, after: string, c: Choices)
    requires BracesInert(before) && BracesInert(after)
    ensures ReplacePlaceholders(before + Token(ph) + after, c) == before + Answer(ph, c) + after
  {
    PlaceholdersPrefixFree(c);
    PlaceholdersSpec(c);
    StrtrOneKey(before, Token(ph), after, Placeholders(c), '{', TokenSeconds);
  }

  /** The controller template up to its namespace token. */
  const ControllerHead: string := "<?php\n\nnamespace "

  /** What follows the namespace token on the namespace line. */
  const ControllerPackage: string := "\\controllers;"

  /**
   * The controller template, grouped around the two braces that open a
   * block, each at the end of its line: `uses` runs from the end of the
   * namespace line to the class declaration, `members` from the class body
   * to the method declaration, `body` from the method body to the end of
   * the file.  The file has no other opening brace; its closing braces
   * lie in `body`.
   */
  function Controller(uses: string, members: string, body: string): string
  {
    ControllerHead + Token(NamespaceName) + ControllerTail(uses, members, body)
  }

  /**
   * Rewriting the controller template replaces its namespace token by the
   * namespace and keeps everything else, the code braces included.
   */
  lemma ControllerRewritten(uses: string, members: string, body: string, c: Choices)
    requires forall i :: 0 <= i < |uses| ==> uses[i] != '{'
    requires forall i :: 0 <= i < |members| ==> members[i] != '{'
    requires forall i :: 0 <= i < |body| ==> body[i] != '{'
    ensures ReplacePlaceholders(Controller(uses, members, body), c)
         == ControllerHead + c.namespace + ControllerTail(uses, members, body)
  {
    var after := ControllerTail(uses, members, body);
    ControllerTailInert(uses, members, body);
    assert BracesInert(ControllerHead) by {
      assert forall i :: 0 <= i < |ControllerHead| ==> ControllerHead[i] != '{';
      AbsentInert(ControllerHead, '{', TokenSeconds);
    }
    OneHole(ControllerHead, NamespaceName, after, c);
  }

  /** The controller template after its namespace token. */
  function ControllerTail(uses: string, members: string, body: string): string
  {
    ControllerPackage + uses + "{\n" + members + "    {\n" + body
  }

  /** Both code braces of the controller end their line, so no token starts after the namespace token. */
  lemma ControllerTailInert(uses: string, members: string, body: string)
    requires forall i :: 0 <= i < |uses| ==> uses[i] != '{'
    requires forall i :: 0 <= i < |members| ==> members[i] != '{'
    requires forall i :: 0 <= i < |body| ==> body[i] != '{'
    ensures BracesInert(ControllerTail(uses, members, body))
  {
    var classOpen, methodOpen := "{\n", "    {\n";
    assert forall i :: 0 <= i < |ControllerPackage| ==> ControllerPackage[i] != '{';
    AbsentInert(ControllerPackage, '{', TokenSeconds);
    AbsentInert(uses, '{', TokenSeconds);
    AbsentInert(members, '{', TokenSeconds);
    AbsentInert(body, '{', TokenSeconds);
    assert BracesInert(classOpen) && BracesInert(methodOpen);
    InertConcat(ControllerPackage, uses, '{', TokenSeconds);
    InertConcat(ControllerPackage + uses, classOpen, '{', TokenSeconds);
    InertConcat(ControllerPackage + uses + classOpen, members, '{', TokenSeconds);
    InertConcat(ControllerPackage + uses + classOpen + members, methodOpen, '{', TokenSeconds);
    InertConcat(ControllerPackage + uses + classOpen + members + methodOpen, body, '{', TokenSeconds);
  }

  /** A namespace that spells another token is inserted as typed, not substituted again. */
  lemma NoSecondSubstitution(c: Choices)
    requires c.namespace == "{AppName}"
    ensures ReplacePlaceholders("{namespace}", c) == "{AppName}"
  {
    PlaceholdersPrefixFree(c);
    StrtrKeyPrefix("{namespace}", "", Placeholders(c), '{');
    assert "{namespace}" + "" == "{namespace}";
  }

  /** The example the config file is made from. */
  const ConfigExample: string := "config.conf.example"

  /** The address `createConfig` writes for the tars node. */
  const TarsNodeAddress: string := "127.0.0.1"

  /** The file `createConfig` writes: a name and its content. */
  datatype ConfigFile = ConfigFile(name: string, content: string)

  /**
   * `createConfig`: given the example's content, or `None` when the file
   * does not exist (the installer then only warns), the file to write.
   */
  function CreateConfig(example: Option<string>): Option<ConfigFile>
  {
    match example
    case None => None
    case Some(content) =>
      Some(ConfigFile(StrReplace(".example", "", ConfigExample), Strtr(content, map["{tarsnode}" := TarsNodeAddress])))
  }

  /** The example's name without its suffix. */
  lemma ConfigFileName()
    ensures StrReplace(".example", "", ConfigExample) == "config.conf"
  {
    var t := "config.conf";
    var k := ".example";
    assert ConfigExample == t + k;
    forall i | 0 <= i <= |t|
      ensures !IsPrefix(k, t[i..])
    {
      if i <= 3 {
        assert t[i] != '.';
      }
    }
    StrReplaceRemovesSuffix(t, k);
  }

  /** One `{tarsnode}` token between texts in which no brace is followed by `t` is replaced by the address. */
  lemma TarsNodeReplaced(before: string, after: string)
    requires Inert(before, '{', {'t'}) && Inert(after, '{', {'t'})
    ensures Strtr(before + "{tarsnode}" + after, map["{tarsnode}" := TarsNodeAddress]) == before + TarsNodeAddress + after
  {
    var k := "{tarsnode}";
    SingleKeyPrefixFree(k, TarsNodeAddress);
    assert k[0] == '{' && k[1] == 't';
    StrtrOneKey(before, k, after, map[k := TarsNodeAddress], '{', {'t'});
  }

  /**
   * The config file is written as config.conf, with the `{tarsnode}`
   * token of the example replaced by the local address and the rest of
   * the example kept; a missing example produces no file.
   */
  lemma CreateConfigSpec(example: Option<string>, before: string, after: string)
    requires Inert(before, '{', {'t'}) && Inert(after, '{', {'t'})
    ensures example.None? ==> CreateConfig(example).None?
    ensures example == Some(before + "{tarsnode}" + after) ==>
      CreateConfig(example) == Some(ConfigFile("config.conf", before + TarsNodeAddress + after))
  {
    ConfigFileName();
    TarsNodeReplaced(before, after);
  }

  /** The separators `rtrim` strips from the project root. */
  const RootSeparators: set<char> := {'/', '\\'}

  /** PHP truthiness of an optional string: null, "" and "0" are false. */
  predicate Truthy(s: Option<string>)
  {
    s.Some? && s.value != "" && s.value != "0"
  }

  /** A root with its trailing separators replaced by exactly one slash. */
  function NormaliseRoot(root: string): string
  {
    RTrim(root, RootSeparators) + "/"
  }

  /**
   * The project root: the given one when truthy, else the resolved
   * directory of composer.json (`realpath` failing reads as the empty
   * string); in both cases normalised to end in one slash.
   */
  function ProjectRoot(given: Option<string>, resolved: Option<string>): string
  {
    NormaliseRoot(if Truthy(given) then given.value else resolved.GetOr(""))
  }

  /**
   * The `?:` fallback: a falsy given root (null, "" or "0") counts for
   * nothing and the resolved directory decides; a truthy one decides
   * alone.  Either way the root ends in exactly one slash, a failed
   * `realpath` with no given root leaves "/", and a computed root given
   * back as the project root is kept as it is.
   */
  lemma ProjectRootFallback(given: Option<string>, resolved: Option<string>, other: Option<string>)
    ensures var r := ProjectRoot(given, resolved);
      && |r| > 0 && r[|r| - 1] == '/'
      && (|r| == 1 || r[|r| - 2] !in RootSeparators)
      && (given == Some("") || given == Some("0") ==> r == ProjectRoot(None, resolved))
      && (Truthy(given) ==> r == ProjectRoot(given, other) && IsPrefix(r[..|r| - 1], given.value))
      && (!Truthy(given) && resolved.None? ==> r == "/")
      && ProjectRoot(Some(r), other) == r
  {
    var root := if Truthy(given) then given.value else resolved.GetOr("");
    NormaliseRootSpec(root);
    NormalisedRootKept(root, other);
    if !Truthy(given) && resolved.None? {
      assert RTrim(root, RootSeparators) == "";
    }
  }

  /** A normalised root is truthy, so given back as the project root it decides alone and comes back unchanged. */
  lemma NormalisedRootKept(root: string, other: Option<string>)
    ensures Truthy(Some(NormaliseRoot(root)))
    ensures ProjectRoot(Some(NormaliseRoot(root)), other) == NormaliseRoot(root)
  {
    var r := NormaliseRoot(root);
    NormaliseRootSpec(root);
    assert r != "0" by {
      if |r| == 1 {
        assert r[0] == '/';
      }
    }
  }


  /**
   * A normalised root ends in exactly one slash with no separator before
   * it, keeps everything of the root up to its trailing separators, and
   * normalising again changes nothing.
   */
  lemma NormaliseRootSpec(root: string)
    ensures var r := NormaliseRoot(root);
      && |r| > 0 && r[|r| - 1] == '/'
      && (|r| == 1 || r[|r| - 2] !in RootSeparators)
      && IsPrefix(r[..|r| - 1], root)
      && (forall i :: |r| - 1 <= i < |root| ==> root[i] in RootSeparators)
      && NormaliseRoot(r) == r
  {
    var t := RTrim(root, RootSeparators);
    var r := t + "/";
    assert r[..|r| - 1] == t;
    assert r[|r| - 1] == '/' && r[..|r| - 1] == t;
    assert RTrim(r[..|r| - 1], RootSeparators) == t by {
      if |t| > 0 {
        assert t[|t| - 1] !in RootSeparators;
      }
    }
    assert RTrim(r, RootSeparators) == t;
  }

}
