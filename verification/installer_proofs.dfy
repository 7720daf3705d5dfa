/**
 * What the manifest edits of installer/Script.php guarantee: the entries
 * each edit sets or removes, and that every entry apart from the edited
 * ones is left as it was.
 */
module InstallerProofs {
  import opened Wrappers
  import opened Json
  import opened Protocols
  import opened PhpNumeric
  import opened Installer

  /** `q` lies apart from every path in `ps`. */
  predicate ApartFromAll(q: Path, ps: seq<Path>)
  {
    forall i :: 0 <= i < |ps| ==> Apart(ps[i], q)
  }

  /** Apart from every path of a concatenation is apart from every path of both parts. */
  lemma ApartFromAllConcat(q: Path, a: seq<Path>, b: seq<Path>)
    ensures ApartFromAll(q, a + b) <==> ApartFromAll(q, a) && ApartFromAll(q, b)
  {
    if ApartFromAll(q, a + b) {
      forall i | 0 <= i < |a| ensures Apart(a[i], q) { assert (a + b)[i] == a[i]; }
      forall i | 0 <= i < |b| ensures Apart(b[i], q) { assert (a + b)[|a| + i] == b[i]; }
    }
  }

  /** The manifest paths `setupForProtocol` writes. */
  function SetupPaths(p: Protocol): seq<Path>
  {
    match p
    case Http => [ServerNamePath, GeneratorClientPath, KuiperConfigurationPath]
    case Tars => [ServerNamePath]
  }

  /**
   * `setupForProtocol` records the server name under extra.tars whichever
   * the protocol; http also adds the client generator stanza and the kuiper
   * configuration; nothing else in the manifest and none of the link or
   * stability maps change.
   */
  lemma SetupForProtocolSpec(st: State, c: Choices)
    requires SetupForProtocol(st, c).Success?
    ensures var r := SetupForProtocol(st, c).value;
      && Get(r.definition, ServerNamePath) == Some(Str(c.serverName))
      && (c.protocol == Http ==>
            && Get(r.definition, GeneratorClientPath) == Some(GeneratorClient)
            && Get(r.definition, KuiperConfigurationPath) == Some(KuiperConfiguration))
      && r.requireLinks == st.requireLinks
      && r.devRequireLinks == st.devRequireLinks
      && r.stabilityFlags == st.stabilityFlags
      && forall q :: ApartFromAll(q, SetupPaths(c.protocol)) ==> Get(r.definition, q) == Get(st.definition, q)
  {
    var d0 := st.definition;
    var d1 := Set(d0, ServerNamePath, Str(c.serverName)).value;
    SetThenGet(d0, ServerNamePath, Str(c.serverName));
    match c.protocol
    case Tars =>
      forall q | ApartFromAll(q, SetupPaths(c.protocol))
        ensures Get(d1, q) == Get(d0, q)
      {
        assert Apart(SetupPaths(c.protocol)[0], q);
        SetKeepsApart(d0, ServerNamePath, Str(c.serverName), q);
      }
    case Http =>
      var d2 := Set(d1, GeneratorClientPath, GeneratorClient).value;
      var d3 := Set(d2, KuiperConfigurationPath, KuiperConfiguration).value;
      SetThenGet(d1, GeneratorClientPath, GeneratorClient);
      SetThenGet(d2, KuiperConfigurationPath, KuiperConfiguration);
      SetKeepsApart(d1, GeneratorClientPath, GeneratorClient, ServerNamePath);
      SetKeepsApart(d2, KuiperConfigurationPath, KuiperConfiguration, ServerNamePath);
      SetKeepsApart(d2, KuiperConfigurationPath, KuiperConfiguration, GeneratorClientPath);
      forall q | ApartFromAll(q, SetupPaths(c.protocol))
        ensures Get(d3, q) == Get(d0, q)
      {
        var ps := SetupPaths(c.protocol);
        assert Apart(ps[0], q) && Apart(ps[1], q) && Apart(ps[2], q);
        SetKeepsApart(d0, ServerNamePath, Str(c.serverName), q);
        SetKeepsApart(d1, GeneratorClientPath, GeneratorClient, q);
        SetKeepsApart(d2, KuiperConfigurationPath, KuiperConfiguration, q);
      }
  }

  /** The require-dev paths of the listed dependencies. */
  function RequireDevPaths(deps: seq<string>): seq<Path>
  {
    seq(|deps|, i requires 0 <= i < |deps| => RequireDevPath(deps[i]))
  }

  /** The loop over dependencies, unfolded once. */
  lemma RemoveDevStep(st: State, deps: seq<string>)
    requires |deps| > 0 && RemoveDevDependencies(st, deps).Success?
    ensures RemoveDevDependency(st, deps[0]).Success?
    ensures var st1 := RemoveDevDependency(st, deps[0]).value;
      && Unset(st.definition, RequireDevPath(deps[0])).Success?
      && st1.definition == Unset(st.definition, RequireDevPath(deps[0])).value
      && st1.requireLinks == st.requireLinks
      && st1.devRequireLinks == st.devRequireLinks - {deps[0]}
      && st1.stabilityFlags == st.stabilityFlags - {deps[0]}
      && RemoveDevDependencies(st1, deps[1..]) == RemoveDevDependencies(st, deps)
  {
  }

  /** The set of a list's elements, split at its head. */
  lemma SetOfStep(deps: seq<string>)
    requires |deps| > 0
    ensures (set d | d in deps) == {deps[0]} + (set d | d in deps[1..])
  {
  }

  /**
   * The `INSTALLER_DEPS` loop: every listed dependency is gone from
   * require-dev, the dev links and the stability flags, and nothing else
   * changes.
   */
  lemma {:induction false} RemoveDevDependenciesSpec(st: State, deps: seq<string>)
    requires RemoveDevDependencies(st, deps).Success?
    ensures var r := RemoveDevDependencies(st, deps).value;
      && (forall i :: 0 <= i < |deps| ==> Get(r.definition, RequireDevPath(deps[i])) == None)
      && r.requireLinks == st.requireLinks
      && r.devRequireLinks == st.devRequireLinks - (set d | d in deps)
      && r.stabilityFlags == st.stabilityFlags - (set d | d in deps)
      && forall q :: ApartFromAll(q, RequireDevPaths(deps)) ==> Get(r.definition, q) == Get(st.definition, q)
    decreases |deps|
  {
    if |deps| > 0 {
      var st1 := RemoveDevDependency(st, deps[0]).value;
      var p0 := RequireDevPath(deps[0]);
      var r := RemoveDevDependencies(st1, deps[1..]).value;
      RemoveDevStep(st, deps);
      RemoveDevDependenciesSpec(st1, deps[1..]);
      SetOfStep(deps);
      assert forall i :: 0 <= i < |deps| ==> Get(r.definition, RequireDevPath(deps[i])) == None by {
        UnsetThenGet(st.definition, p0);
        forall i | 0 <= i < |deps|
          ensures Get(r.definition, RequireDevPath(deps[i])) == None
        {
          if i > 0 {
            assert deps[i] == deps[1..][i - 1];
          } else {
            RemoveDevDependenciesKeepAbsent(st1, deps[1..], p0);
          }
        }
      }
      assert forall q :: ApartFromAll(q, RequireDevPaths(deps)) ==> Get(r.definition, q) == Get(st.definition, q) by {
        forall q | ApartFromAll(q, RequireDevPaths(deps))
          ensures Get(r.definition, q) == Get(st.definition, q)
        {
          assert Apart(RequireDevPaths(deps)[0], q);
          forall i | 0 <= i < |deps[1..]|
            ensures Apart(RequireDevPaths(deps[1..])[i], q)
          {
            assert RequireDevPaths(deps[1..])[i] == RequireDevPaths(deps)[i + 1];
          }
          UnsetKeepsApart(st.definition, p0, q);
        }
      }
    }
  }

  /** A path absent before the `INSTALLER_DEPS` loop is absent after it. */
  lemma {:induction false} RemoveDevDependenciesKeepAbsent(st: State, deps: seq<string>, q: Path)
    requires RemoveDevDependencies(st, deps).Success?
    requires Get(st.definition, q) == None
    ensures Get(RemoveDevDependencies(st, deps).value.definition, q) == None
    decreases |deps|
  {
    if |deps| > 0 {
      UnsetKeepsAbsent(st.definition, RequireDevPath(deps[0]), q);
      RemoveDevDependenciesKeepAbsent(RemoveDevDependency(st, deps[0]).value, deps[1..], q);
    }
  }

  /** The manifest paths `fixComposerDefinition` writes or removes. */
  function FixPaths(c: Choices): seq<Path>
  {
    RequireDevPaths(InstallerDeps) + [
      NamePath,
      AutoloadPath(NamespacePrefix(c.namespace)),
      AutoloadDevPath(NamespacePrefix(c.namespace)),
      AutoloadPath(InstallerAutoloadKey),
      PreUpdatePath,
      PreInstallPath
    ]
  }

  function AutoloadPaths(c: Choices): seq<Path>
  {
    [NamePath, AutoloadPath(NamespacePrefix(c.namespace)), AutoloadDevPath(NamespacePrefix(c.namespace)), AutoloadPath(InstallerAutoloadKey)]
  }

  /** The name and autoload rules: each written entry holds its value, the installer's prefix is gone, all else is kept. */
  lemma RewriteAutoloadSpec(d: Json, c: Choices)
    requires RewriteAutoload(d, c).Success?
    ensures var r := RewriteAutoload(d, c).value; var ns := NamespacePrefix(c.namespace);
      && Get(r, NamePath) == Some(Str(c.packageName))
      && (ns != InstallerAutoloadKey ==> Get(r, AutoloadPath(ns)) == Some(Str("src/")))
      && Get(r, AutoloadDevPath(ns)) == Some(Str("tests/"))
      && Get(r, AutoloadPath(InstallerAutoloadKey)) == None
      && forall q :: ApartFromAll(q, AutoloadPaths(c)) ==> Get(r, q) == Get(d, q)
  {
    var ns := NamespacePrefix(c.namespace);
    var d1 := Set(d, NamePath, Str(c.packageName)).value;
    var d2 := Set(d1, AutoloadPath(ns), Str("src/")).value;
    var d3 := Set(d2, AutoloadDevPath(ns), Str("tests/")).value;
    var d4 := Unset(d3, AutoloadPath(InstallerAutoloadKey)).value;
    SetThenGet(d, NamePath, Str(c.packageName));
    SetKeepsApart(d1, AutoloadPath(ns), Str("src/"), NamePath);
    SetKeepsApart(d2, AutoloadDevPath(ns), Str("tests/"), NamePath);
    UnsetKeepsApart(d3, AutoloadPath(InstallerAutoloadKey), NamePath);
    SetThenGet(d1, AutoloadPath(ns), Str("src/"));
    SetKeepsApart(d2, AutoloadDevPath(ns), Str("tests/"), AutoloadPath(ns));
    if ns != InstallerAutoloadKey {
      UnsetKeepsApart(d3, AutoloadPath(InstallerAutoloadKey), AutoloadPath(ns));
    }
    SetThenGet(d2, AutoloadDevPath(ns), Str("tests/"));
    UnsetKeepsApart(d3, AutoloadPath(InstallerAutoloadKey), AutoloadDevPath(ns));
    UnsetThenGet(d3, AutoloadPath(InstallerAutoloadKey));
    forall q | ApartFromAll(q, AutoloadPaths(c))
      ensures Get(d4, q) == Get(d, q)
    {
      var ps := AutoloadPaths(c);
      assert Apart(ps[0], q) && Apart(ps[1], q) && Apart(ps[2], q) && Apart(ps[3], q);
      SetKeepsApart(d, NamePath, Str(c.packageName), q);
      SetKeepsApart(d1, AutoloadPath(ns), Str("src/"), q);
      SetKeepsApart(d2, AutoloadDevPath(ns), Str("tests/"), q);
      UnsetKeepsApart(d3, AutoloadPath(InstallerAutoloadKey), q);
    }
  }

  /** Both installer hooks are gone; every entry apart from them is kept. */
  lemma RemoveInstallerScriptsSpec(d: Json)
    requires RemoveInstallerScripts(d).Success?
    ensures var r := RemoveInstallerScripts(d).value;
      && Get(r, PreUpdatePath) == None
      && Get(r, PreInstallPath) == None
      && forall q :: Apart(PreUpdatePath, q) && Apart(PreInstallPath, q) ==> Get(r, q) == Get(d, q)
  {
    var d1 := Unset(d, PreUpdatePath).value;
    UnsetThenGet(d, PreUpdatePath);
    UnsetKeepsApart(d1, PreInstallPath, PreUpdatePath);
    UnsetThenGet(d1, PreInstallPath);
    forall q | Apart(PreUpdatePath, q) && Apart(PreInstallPath, q)
      ensures Get(RemoveInstallerScripts(d).value, q) == Get(d, q)
    {
      UnsetKeepsApart(d, PreUpdatePath, q);
      UnsetKeepsApart(d1, PreInstallPath, q);
    }
  }

  /**
   * `fixComposerDefinition`: composer/composer is gone from require-dev,
   * the dev links and the stability flags; the package is renamed; the
   * user's namespace is autoloaded from src/ and, for development, from
   * tests/; the installer's own autoload prefix and the two installer hooks
   * are gone, the prefix even when the user's namespace is the installer's
   * own, because its removal comes after the insertion; every other entry
   * is left as it was.
   */
  lemma FixComposerDefinitionSpec(st: State, c: Choices)
    requires FixComposerDefinition(st, c).Success?
    ensures var r := FixComposerDefinition(st, c).value; var ns := NamespacePrefix(c.namespace);
      && Get(r.definition, RequireDevPath("composer/composer")) == None
      && r.requireLinks == st.requireLinks
      && r.devRequireLinks == st.devRequireLinks - {"composer/composer"}
      && r.stabilityFlags == st.stabilityFlags - {"composer/composer"}
      && Get(r.definition, NamePath) == Some(Str(c.packageName))
      && (ns != InstallerAutoloadKey ==> Get(r.definition, AutoloadPath(ns)) == Some(Str("src/")))
      && Get(r.definition, AutoloadDevPath(ns)) == Some(Str("tests/"))
      && Get(r.definition, AutoloadPath(InstallerAutoloadKey)) == None
      && Get(r.definition, PreUpdatePath) == None
      && Get(r.definition, PreInstallPath) == None
      && forall q :: ApartFromAll(q, FixPaths(c)) ==> Get(r.definition, q) == Get(st.definition, q)
  {
    var st1 := RemoveDevDependencies(st, InstallerDeps).value;
    RemoveDevDependenciesSpec(st, InstallerDeps);
    assert (set d | d in InstallerDeps) == {"composer/composer"};
    FixComposerDefinitionWrites(st, c);
    forall q | ApartFromAll(q, FixPaths(c))
      ensures Get(FixComposerDefinition(st, c).value.definition, q) == Get(st.definition, q)
    {
      FixKeeps(st, c, q);
    }
  }

  /**
   * The stability `switch`: its labels are not numeric strings, so loose
   * comparison is exact and the four labels dev, alpha, beta and RC each
   * select their own flag, while any other stability (stable among them)
   * selects none.
   */
  lemma StabilityFlagSpec(stability: string)
    ensures StabilityFlag(stability) == Some(StabilityDev) <==> stability == "dev"
    ensures StabilityFlag(stability) == Some(StabilityAlpha) <==> stability == "alpha"
    ensures StabilityFlag(stability) == Some(StabilityBeta) <==> stability == "beta"
    ensures StabilityFlag(stability) == Some(StabilityRC) <==> stability == "RC"
    ensures StabilityFlag(stability) == None <==> stability !in {"dev", "alpha", "beta", "RC"}
  {
    LetterFirstNotNumeric("dev");
    LetterFirstNotNumeric("alpha");
    LetterFirstNotNumeric("beta");
    LetterFirstNotNumeric("RC");
    LooseEqualsNonNumeric(stability, "dev");
    LooseEqualsNonNumeric(stability, "alpha");
    LooseEqualsNonNumeric(stability, "beta");
    LooseEqualsNonNumeric(stability, "RC");
  }

  /** One package: required at its version, out of require-dev and the dev links, flagged by its stability. */
  lemma AddPackageSpec(st: State, name: string, version: string, parseStability: string -> string)
    requires AddPackage(st, name, version, parseStability).Success?
    ensures var r := AddPackage(st, name, version, parseStability).value;
      && Get(r.definition, RequirePath(name)) == Some(Str(version))
      && Get(r.definition, RequireDevPath(name)) == None
      && r.requireLinks == st.requireLinks[name := Link("__root__", name, "requires", version)]
      && r.devRequireLinks == st.devRequireLinks - {name}
      && (StabilityFlag(parseStability(version)).Some? ==>
            r.stabilityFlags == st.stabilityFlags[name := StabilityFlag(parseStability(version)).value])
      && (StabilityFlag(parseStability(version)).None? ==> r.stabilityFlags == st.stabilityFlags)
      && forall q :: Apart(RequirePath(name), q) && Apart(RequireDevPath(name), q) ==>
           Get(r.definition, q) == Get(st.definition, q)
  {
    var d1 := Unset(st.definition, RequireDevPath(name)).value;
    UnsetThenGet(st.definition, RequireDevPath(name));
    SetThenGet(d1, RequirePath(name), Str(version));
    SetKeepsApart(d1, RequirePath(name), Str(version), RequireDevPath(name));
    forall q | Apart(RequirePath(name), q) && Apart(RequireDevPath(name), q)
      ensures Get(AddPackage(st, name, version, parseStability).value.definition, q) == Get(st.definition, q)
    {
      UnsetKeepsApart(st.definition, RequireDevPath(name), q);
      SetKeepsApart(d1, RequirePath(name), Str(version), q);
    }
  }

  /** The link and flag maps of one package addition change only at that package's name. */
  lemma AddPackageLinks(st: State, name: string, version: string, parseStability: string -> string)
    requires AddPackage(st, name, version, parseStability).Success?
    ensures var r := AddPackage(st, name, version, parseStability).value;
      && r.requireLinks - {name} == st.requireLinks - {name}
      && r.devRequireLinks - {name} == st.devRequireLinks - {name}
      && r.stabilityFlags - {name} == st.stabilityFlags - {name}
  {
    var r := AddPackage(st, name, version, parseStability).value;
    assert r.requireLinks == st.requireLinks[name := Link("__root__", name, "requires", version)];
    assert r.devRequireLinks == st.devRequireLinks - {name};
    UpdateOutside(st.requireLinks, name, Link("__root__", name, "requires", version));
    RemoveOutside(st.devRequireLinks, name);
    match StabilityFlag(parseStability(version))
    case Some(f) =>
      assert r.stabilityFlags == st.stabilityFlags[name := f];
      UpdateOutside(st.stabilityFlags, name, f);
    case None =>
  }

  /** Setting a key leaves the map outside that key alone. */
  lemma UpdateOutside<V>(m: map<string, V>, k: string, v: V)
    ensures m[k := v] - {k} == m - {k}
  {
    assert forall x :: x in m[k := v] - {k} <==> x in m - {k};
  }

  /** Removing a key twice is removing it once. */
  lemma RemoveOutside<V>(m: map<string, V>, k: string)
    ensures (m - {k}) - {k} == m - {k}
  {
    assert forall x :: x in (m - {k}) - {k} <==> x in m - {k};
  }

  /** One package addition keeps every manifest entry apart from its own two. */
  lemma AddPackageKeepsApart(st: State, name: string, version: string, parseStability: string -> string, q: Path)
    requires AddPackage(st, name, version, parseStability).Success?
    requires Apart(RequirePath(name), q) && Apart(RequireDevPath(name), q)
    ensures Get(AddPackage(st, name, version, parseStability).value.definition, q) == Get(st.definition, q)
  {
    AddPackageSpec(st, name, version, parseStability);
  }

  /** One package addition meets the promise of `Added`. */
  lemma AddPackageAdded(st: State, name: string, version: string, parseStability: string -> string)
    requires AddPackage(st, name, version, parseStability).Success?
    ensures Added(AddPackage(st, name, version, parseStability).value, st, (name, version), parseStability)
  {
    AddPackageSpec(st, name, version, parseStability);
  }

  /** The package names of a table. */
  function Names(entries: seq<(string, string)>): set<string>
  {
    set i | 0 <= i < |entries| :: entries[i].0
  }

  /** The names of a non-empty list: the first one and those of the rest. */
  lemma NamesStep(entries: seq<(string, string)>)
    requires |entries| > 0
    ensures Names(entries) == {entries[0].0} + Names(entries[1..])
  {
    forall x | x in Names(entries)
      ensures x in {entries[0].0} + Names(entries[1..])
    {
      var i :| 0 <= i < |entries| && entries[i].0 == x;
      if i > 0 {
        assert entries[1..][i - 1] == entries[i];
      }
    }
    forall x | x in Names(entries[1..])
      ensures x in Names(entries)
    {
      var i :| 0 <= i < |entries[1..]| && entries[1..][i].0 == x;
      assert entries[i + 1] == entries[1..][i];
    }
  }

  /** No package is listed twice, as in a PHP array keyed by package name. */
  predicate DistinctNames(entries: seq<(string, string)>)
  {
    forall i, j :: 0 <= i < j < |entries| ==> entries[i].0 != entries[j].0
  }

  /** `q` lies apart from the require and require-dev entries of every listed package. */
  predicate ApartFromPackages(q: Path, entries: seq<(string, string)>)
  {
    forall i :: 0 <= i < |entries| ==> Apart(RequirePath(entries[i].0), q) && Apart(RequireDevPath(entries[i].0), q)
  }

  /** What adding one listed package promises. */
  predicate Added(r: State, st: State, entry: (string, string), parseStability: string -> string)
  {
    var (name, version) := entry;
    && Get(r.definition, RequirePath(name)) == Some(Str(version))
    && Get(r.definition, RequireDevPath(name)) == None
    && name in r.requireLinks && r.requireLinks[name] == Link("__root__", name, "requires", version)
    && name !in r.devRequireLinks
    && (StabilityFlag(parseStability(version)).Some? ==>
          name in r.stabilityFlags && r.stabilityFlags[name] == StabilityFlag(parseStability(version)).value)
    && (StabilityFlag(parseStability(version)).None? ==>
          (name in r.stabilityFlags <==> name in st.stabilityFlags)
          && (name in st.stabilityFlags ==> r.stabilityFlags[name] == st.stabilityFlags[name]))
  }

  /** The require and require-dev entries of two different packages, and the two sections themselves, never overlap. */
  lemma PackagePathsApart(a: string, b: string)
    ensures Apart(RequirePath(a), RequireDevPath(b))
    ensures Apart(RequireDevPath(a), RequirePath(b))
    ensures a != b ==> Apart(RequirePath(a), RequirePath(b)) && Apart(RequireDevPath(a), RequireDevPath(b))
  {
    assert RequirePath(a)[0] != RequireDevPath(b)[0];
    assert RequireDevPath(a)[0] != RequirePath(b)[0];
    if a != b {
      assert RequirePath(a)[1..] == [a] && RequirePath(b)[1..] == [b];
      assert RequireDevPath(a)[1..] == [a] && RequireDevPath(b)[1..] == [b];
    }
  }

  /** Two edits that each keep a map outside their own keys together keep it outside both. */
  lemma MinusStep<V>(m: map<string, V>, m1: map<string, V>, r: map<string, V>, name: string, names: set<string>)
    requires m1 - {name} == m - {name}
    requires r - names == m1 - names
    ensures r - ({name} + names) == m - ({name} + names)
  {
    assert r - ({name} + names) == (r - names) - {name};
    assert m - ({name} + names) == (m - {name}) - names;
    assert m1 - ({name} + names) == (m1 - names) - {name} == (m1 - {name}) - names;
  }

  /** A package added earlier stays added while later, differently named packages are added. */
  lemma AddedKept(r: State, st1: State, st: State, entry: (string, string), names: set<string>, parseStability: string -> string)
    requires Added(st1, st, entry, parseStability)
    requires entry.0 !in names
    requires r.requireLinks - names == st1.requireLinks - names
    requires r.devRequireLinks - names == st1.devRequireLinks - names
    requires r.stabilityFlags - names == st1.stabilityFlags - names
    requires Get(r.definition, RequirePath(entry.0)) == Get(st1.definition, RequirePath(entry.0))
    requires Get(r.definition, RequireDevPath(entry.0)) == Get(st1.definition, RequireDevPath(entry.0))
    ensures Added(r, st, entry, parseStability)
  {
    var name := entry.0;
    assert name in r.requireLinks - names;
    assert (r.requireLinks - names)[name] == r.requireLinks[name];
    assert name !in r.devRequireLinks - names;
    assert name in r.stabilityFlags - names <==> name in st1.stabilityFlags - names;
    if name in r.stabilityFlags {
      assert (r.stabilityFlags - names)[name] == r.stabilityFlags[name];
    }
  }

  /** A package added later keeps its promise relative to the state before an earlier, differently named package. */
  lemma AddedAfter(r: State, st1: State, st: State, entry: (string, string), earlier: string, parseStability: string -> string)
    requires Added(r, st1, entry, parseStability)
    requires entry.0 != earlier
    requires st1.stabilityFlags - {earlier} == st.stabilityFlags - {earlier}
    ensures Added(r, st, entry, parseStability)
  {
    var name := entry.0;
    assert name in st1.stabilityFlags - {earlier} <==> name in st.stabilityFlags - {earlier};
    if name in st.stabilityFlags {
      assert (st.stabilityFlags - {earlier})[name] == st.stabilityFlags[name];
      assert (st1.stabilityFlags - {earlier})[name] == st1.stabilityFlags[name];
    }
  }

  /**
   * The `addPackages` loop over a table of distinct packages: every listed
   * package is required at its declared version and is out of require-dev
   * and the dev links, with its stability flag set when its stability is
   * dev, alpha, beta or RC; unlisted packages and every manifest entry
   * apart from the listed ones are left as they were.
   */
  lemma AddPackageListSpec(st: State, entries: seq<(string, string)>, parseStability: string -> string)
    requires DistinctNames(entries)
    requires AddPackageList(st, entries, parseStability).Success?
    ensures var r := AddPackageList(st, entries, parseStability).value;
      && (forall i :: 0 <= i < |entries| ==> Added(r, st, entries[i], parseStability))
      && r.requireLinks - Names(entries) == st.requireLinks - Names(entries)
      && r.devRequireLinks - Names(entries) == st.devRequireLinks - Names(entries)
      && r.stabilityFlags - Names(entries) == st.stabilityFlags - Names(entries)
      && forall q :: ApartFromPackages(q, entries) ==> Get(r.definition, q) == Get(st.definition, q)
  {
    AddPackageListAdds(st, entries, parseStability);
    AddPackageListKeepsOthers(st, entries, parseStability);
    forall q | ApartFromPackages(q, entries)
      ensures Get(AddPackageList(st, entries, parseStability).value.definition, q) == Get(st.definition, q)
    {
      AddPackageListKeepsApart(st, entries, parseStability, q);
    }
  }

  /** A manifest entry apart from the listed packages' require and require-dev entries is untouched. */
  lemma {:induction false} AddPackageListKeepsApart(st: State, entries: seq<(string, string)>, parseStability: string -> string, q: Path)
    requires AddPackageList(st, entries, parseStability).Success?
    requires ApartFromPackages(q, entries)
    ensures Get(AddPackageList(st, entries, parseStability).value.definition, q) == Get(st.definition, q)
    decreases |entries|
  {
    if |entries| > 0 {
      var (name, version) := entries[0];
      var rest := entries[1..];
      var st1 := AddPackage(st, name, version, parseStability).value;
      assert Apart(RequirePath(name), q) && Apart(RequireDevPath(name), q);
      AddPackageKeepsApart(st, name, version, parseStability, q);
      assert ApartFromPackages(q, rest) by {
        forall i | 0 <= i < |rest|
          ensures Apart(RequirePath(rest[i].0), q) && Apart(RequireDevPath(rest[i].0), q)
        {
          assert rest[i] == entries[i + 1];
          assert Apart(RequirePath(entries[i + 1].0), q) && Apart(RequireDevPath(entries[i + 1].0), q);
        }
      }
      AddPackageListKeepsApart(st1, rest, parseStability, q);
    }
  }

  /** The links and flags of packages that are not listed are untouched. */
  lemma {:induction false} AddPackageListKeepsOthers(st: State, entries: seq<(string, string)>, parseStability: string -> string)
    requires AddPackageList(st, entries, parseStability).Success?
    ensures var r := AddPackageList(st, entries, parseStability).value;
      && r.requireLinks - Names(entries) == st.requireLinks - Names(entries)
      && r.devRequireLinks - Names(entries) == st.devRequireLinks - Names(entries)
      && r.stabilityFlags - Names(entries) == st.stabilityFlags - Names(entries)
    decreases |entries|
  {
    if |entries| == 0 {
      assert Names(entries) == {};
    } else {
      var name, version := entries[0].0, entries[0].1;
      var rest := entries[1..];
      var st1 := AddPackage(st, name, version, parseStability).value;
      var r := AddPackageList(st1, rest, parseStability).value;
      AddPackageLinks(st, name, version, parseStability);
      AddPackageListKeepsOthers(st1, rest, parseStability);
      NamesStep(entries);
      MinusStep(st.requireLinks, st1.requireLinks, r.requireLinks, name, Names(rest));
      MinusStep(st.devRequireLinks, st1.devRequireLinks, r.devRequireLinks, name, Names(rest));
      MinusStep(st.stabilityFlags, st1.stabilityFlags, r.stabilityFlags, name, Names(rest));
    }
  }

  /** Every listed package ends up added. */
  lemma {:induction false} AddPackageListAdds(st: State, entries: seq<(string, string)>, parseStability: string -> string)
    requires DistinctNames(entries)
    requires AddPackageList(st, entries, parseStability).Success?
    ensures var r := AddPackageList(st, entries, parseStability).value;
      forall i :: 0 <= i < |entries| ==> Added(r, st, entries[i], parseStability)
    decreases |entries|
  {
    if |entries| > 0 {
      var name, version := entries[0].0, entries[0].1;
      var rest := entries[1..];
      var st1 := AddPackage(st, name, version, parseStability).value;
      var r := AddPackageList(st1, rest, parseStability).value;
      assert DistinctNames(rest);
      assert name !in Names(rest) by {
        forall j | 0 <= j < |rest|
          ensures rest[j].0 != name
        {
          assert rest[j] == entries[j + 1];
        }
      }
      assert Added(st1, st, entries[0], parseStability) by {
        AddPackageAdded(st, name, version, parseStability);
      }
      assert Added(r, st, entries[0], parseStability) by {
        AddPackageListKeepsOthers(st1, rest, parseStability);
        forall i | 0 <= i < |rest|
          ensures Apart(RequirePath(rest[i].0), RequirePath(name)) && Apart(RequireDevPath(rest[i].0), RequirePath(name))
          ensures Apart(RequirePath(rest[i].0), RequireDevPath(name)) && Apart(RequireDevPath(rest[i].0), RequireDevPath(name))
        {
          assert rest[i] == entries[i + 1];
          PackagePathsApart(rest[i].0, name);
        }
        AddPackageListKeepsApart(st1, rest, parseStability, RequirePath(name));
        AddPackageListKeepsApart(st1, rest, parseStability, RequireDevPath(name));
        AddedKept(r, st1, st, entries[0], Names(rest), parseStability);
      }
      AddPackageListAdds(st1, rest, parseStability);
      AddPackageLinks(st, name, version, parseStability);
      forall i | 0 < i < |entries|
        ensures Added(r, st, entries[i], parseStability)
      {
        assert entries[i] == rest[i - 1];
        AddedAfter(r, st1, st, entries[i], name, parseStability);
      }
    }
  }

  /** The require and require-dev paths of every package in a table. */
  function PackagePaths(entries: seq<(string, string)>): seq<Path>
  {
    if |entries| == 0 then [] else [RequirePath(entries[0].0), RequireDevPath(entries[0].0)] + PackagePaths(entries[1..])
  }

  /**
   * `addPackages`: the http skeleton ends up requiring slim/slim at ^4.0,
   * with slim/slim out of require-dev and the dev links, and nothing else
   * changes; the tars skeleton adds nothing at all.
   */
  lemma AddPackagesSpec(st: State, p: Protocol, parseStability: string -> string)
    requires AddPackages(st, p, parseStability).Success?
    ensures p == Tars ==> AddPackages(st, p, parseStability).value == st
    ensures p == Http ==> var r := AddPackages(st, p, parseStability).value;
      && Added(r, st, ("slim/slim", "^4.0"), parseStability)
      && r.requireLinks - {"slim/slim"} == st.requireLinks - {"slim/slim"}
      && r.devRequireLinks - {"slim/slim"} == st.devRequireLinks - {"slim/slim"}
      && r.stabilityFlags - {"slim/slim"} == st.stabilityFlags - {"slim/slim"}
    ensures var r := AddPackages(st, p, parseStability).value;
      forall q :: ApartFromAll(q, PackagePaths(PackagesFor(p))) ==> Get(r.definition, q) == Get(st.definition, q)
  {
    var entries := PackagesFor(p);
    AddPackageListSpec(st, entries, parseStability);
    if p == Http {
      assert Names(entries) == {"slim/slim"};
      assert entries[0] == ("slim/slim", "^4.0");
      forall q | ApartFromAll(q, PackagePaths(entries))
        ensures ApartFromPackages(q, entries)
      {
        assert PackagePaths(entries) == [RequirePath("slim/slim"), RequireDevPath("slim/slim")];
        assert Apart(PackagePaths(entries)[0], q) && Apart(PackagePaths(entries)[1], q);
      }
    }
  }

  /** The paths addPackages touches for each protocol. */
  lemma PackagePathsFor(p: Protocol)
    ensures PackagePaths(PackagesFor(p))
         == if p == Http then [RequirePath("slim/slim"), RequireDevPath("slim/slim")] else []
  {
    var entries := PackagesFor(p);
    if p == Http {
      assert entries[1..] == [];
      assert PackagePaths(entries[1..]) == [];
    }
  }

  /** Every manifest path `install` writes or removes, in its order. */
  function ConfigurePaths(c: Choices): seq<Path>
  {
    SetupPaths(c.protocol) + FixPaths(c) + PackagePaths(PackagesFor(c.protocol))
  }

  /**
   * The manifest `install` leaves behind: the server name and, for http,
   * the client generator and kuiper configuration; the package name; the
   * project namespace mapped to src/ and tests/ with the installer's own
   * mapping gone; the installer hooks gone; composer/composer out of
   * require-dev, the dev links and the stability flags; slim/slim required
   * for http and kept out of require-dev and the dev links; and every other
   * entry, link and flag exactly as in the skeleton.
   */
  lemma ConfigureSpec(st: State, c: Choices, parseStability: string -> string)
    requires Configure(st, c, parseStability).Success?
    ensures var r := Configure(st, c, parseStability).value; var ns := NamespacePrefix(c.namespace);
      && Get(r.definition, ServerNamePath) == Some(Str(c.serverName))
      && (c.protocol == Http ==>
            && Get(r.definition, GeneratorClientPath) == Some(GeneratorClient)
            && Get(r.definition, KuiperConfigurationPath) == Some(KuiperConfiguration)
            && Get(r.definition, RequirePath("slim/slim")) == Some(Str("^4.0"))
            && "slim/slim" in r.requireLinks
            && r.requireLinks["slim/slim"] == Link("__root__", "slim/slim", "requires", "^4.0")
            && Get(r.definition, RequireDevPath("slim/slim")) == None
            && "slim/slim" !in r.devRequireLinks)
      && Get(r.definition, NamePath) == Some(Str(c.packageName))
      && (ns != InstallerAutoloadKey ==> Get(r.definition, AutoloadPath(ns)) == Some(Str("src/")))
      && Get(r.definition, AutoloadDevPath(ns)) == Some(Str("tests/"))
      && Get(r.definition, AutoloadPath(InstallerAutoloadKey)) == None
      && Get(r.definition, PreUpdatePath) == None
      && Get(r.definition, PreInstallPath) == None
      && Get(r.definition, RequireDevPath("composer/composer")) == None
      && "composer/composer" !in r.devRequireLinks
      && "composer/composer" !in r.stabilityFlags
      && (c.protocol == Tars ==>
            && r.requireLinks == st.requireLinks
            && r.devRequireLinks == st.devRequireLinks - {"composer/composer"}
            && r.stabilityFlags == st.stabilityFlags - {"composer/composer"})
      && (c.protocol == Http ==>
            && r.requireLinks - {"slim/slim"} == st.requireLinks - {"slim/slim"}
            && r.devRequireLinks - {"slim/slim"} == st.devRequireLinks - {"composer/composer", "slim/slim"}
            && r.stabilityFlags - {"slim/slim"} == st.stabilityFlags - {"composer/composer", "slim/slim"})
      && forall q :: ApartFromAll(q, ConfigurePaths(c)) ==> Get(r.definition, q) == Get(st.definition, q)
  {
    ConfigureSetupFacts(st, c, parseStability);
    ConfigureLinkFrame(st, c, parseStability);
    ConfigureFixFacts(st, c, parseStability);
    ConfigureAddFacts(st, c, parseStability);
    forall q | ApartFromAll(q, ConfigurePaths(c))
      ensures Get(Configure(st, c, parseStability).value.definition, q) == Get(st.definition, q)
    {
      ConfigureKeepsApart(st, c, parseStability, q);
    }
  }

  /** The entries fixComposerDefinition writes or removes, without the frame. */
  lemma FixComposerDefinitionWrites(st: State, c: Choices)
    requires FixComposerDefinition(st, c).Success?
    ensures var r := FixComposerDefinition(st, c).value; var ns := NamespacePrefix(c.namespace);
      && Get(r.definition, RequireDevPath("composer/composer")) == None
      && Get(r.definition, NamePath) == Some(Str(c.packageName))
      && (ns != InstallerAutoloadKey ==> Get(r.definition, AutoloadPath(ns)) == Some(Str("src/")))
      && Get(r.definition, AutoloadDevPath(ns)) == Some(Str("tests/"))
      && Get(r.definition, AutoloadPath(InstallerAutoloadKey)) == None
      && Get(r.definition, PreUpdatePath) == None
      && Get(r.definition, PreInstallPath) == None
  {
    FixStages(st, c);
    var st1 := RemoveDevDependencies(st, InstallerDeps).value;
    assert Get(st1.definition, RequireDevPath("composer/composer")) == None by {
      RemoveDevDependenciesSpec(st, InstallerDeps);
      assert InstallerDeps[0] == "composer/composer";
    }
    AutoloadThenScripts(st1.definition, c);
  }

  /** The autoload rewrite followed by the hook removal, on a manifest without composer/composer in require-dev. */
  lemma AutoloadThenScripts(d1: Json, c: Choices)
    requires RewriteAutoload(d1, c).Success?
    requires RemoveInstallerScripts(RewriteAutoload(d1, c).value).Success?
    ensures var r := RemoveInstallerScripts(RewriteAutoload(d1, c).value).value; var ns := NamespacePrefix(c.namespace);
      && (Get(d1, RequireDevPath("composer/composer")) == None ==> Get(r, RequireDevPath("composer/composer")) == None)
      && Get(r, NamePath) == Some(Str(c.packageName))
      && (ns != InstallerAutoloadKey ==> Get(r, AutoloadPath(ns)) == Some(Str("src/")))
      && Get(r, AutoloadDevPath(ns)) == Some(Str("tests/"))
      && Get(r, AutoloadPath(InstallerAutoloadKey)) == None
      && Get(r, PreUpdatePath) == None
      && Get(r, PreInstallPath) == None
  {
    var ns := NamespacePrefix(c.namespace);
    var d2 := RewriteAutoload(d1, c).value;
    var cc := RequireDevPath("composer/composer");
    assert && Get(d2, cc) == Get(d1, cc)
           && Get(d2, NamePath) == Some(Str(c.packageName))
           && (ns != InstallerAutoloadKey ==> Get(d2, AutoloadPath(ns)) == Some(Str("src/")))
           && Get(d2, AutoloadDevPath(ns)) == Some(Str("tests/"))
           && Get(d2, AutoloadPath(InstallerAutoloadKey)) == None by {
      RewriteAutoloadSpec(d1, c);
      InstallerDepApartFromAutoload(c);
    }
    RemoveInstallerScriptsSpec(d2);
    assert Apart(PreUpdatePath, cc) && Apart(PreInstallPath, cc);
    assert Apart(PreUpdatePath, NamePath) && Apart(PreInstallPath, NamePath);
    assert Apart(PreUpdatePath, AutoloadPath(ns)) && Apart(PreInstallPath, AutoloadPath(ns));
    assert Apart(PreUpdatePath, AutoloadDevPath(ns)) && Apart(PreInstallPath, AutoloadDevPath(ns));
    assert Apart(PreUpdatePath, AutoloadPath(InstallerAutoloadKey)) && Apart(PreInstallPath, AutoloadPath(InstallerAutoloadKey));
  }

  /** The require-dev entry of composer/composer lies apart from the name and the autoload entries. */
  lemma InstallerDepApartFromAutoload(c: Choices)
    ensures ApartFromAll(RequireDevPath("composer/composer"), AutoloadPaths(c))
  {
    var cc := RequireDevPath("composer/composer");
    var ps := AutoloadPaths(c);
    assert cc[0][0] == 'r';
    assert ps[0][0][0] == 'n' && ps[1][0][0] == 'a' && ps[2][0][0] == 'a' && ps[3][0][0] == 'a';
  }

  /** `fixComposerDefinition` as its three stages, each of which succeeds. */
  lemma FixStages(st: State, c: Choices)
    requires FixComposerDefinition(st, c).Success?
    ensures RemoveDevDependencies(st, InstallerDeps).Success?
    ensures var st1 := RemoveDevDependencies(st, InstallerDeps).value;
      && RewriteAutoload(st1.definition, c).Success?
      && RemoveInstallerScripts(RewriteAutoload(st1.definition, c).value).Success?
      && FixComposerDefinition(st, c).value
         == st1.(definition := RemoveInstallerScripts(RewriteAutoload(st1.definition, c).value).value)
  {
  }

  /** The paths of `fixComposerDefinition`, listed. */
  lemma FixPathsList(c: Choices)
    ensures var ns := NamespacePrefix(c.namespace);
      FixPaths(c) == [RequireDevPath("composer/composer"), NamePath, AutoloadPath(ns), AutoloadDevPath(ns),
                      AutoloadPath(InstallerAutoloadKey), PreUpdatePath, PreInstallPath]
  {
    assert RequireDevPaths(InstallerDeps) == [RequireDevPath("composer/composer")];
  }

  /** One entry apart from what setupForProtocol writes. */
  lemma SetupKeeps(st: State, c: Choices, q: Path)
    requires SetupForProtocol(st, c).Success?
    requires ApartFromAll(q, SetupPaths(c.protocol))
    ensures Get(SetupForProtocol(st, c).value.definition, q) == Get(st.definition, q)
  {
    SetupForProtocolSpec(st, c);
  }

  /** One entry apart from what fixComposerDefinition writes or removes. */
  lemma FixKeeps(st: State, c: Choices, q: Path)
    requires FixComposerDefinition(st, c).Success?
    requires ApartFromAll(q, FixPaths(c))
    ensures Get(FixComposerDefinition(st, c).value.definition, q) == Get(st.definition, q)
  {
    FixStages(st, c);
    var st1 := RemoveDevDependencies(st, InstallerDeps).value;
    var d1 := st1.definition;
    var d2 := RewriteAutoload(d1, c).value;
    var ns := NamespacePrefix(c.namespace);
    assert Apart(RequireDevPath("composer/composer"), q)
        && ApartFromAll(q, AutoloadPaths(c))
        && Apart(PreUpdatePath, q) && Apart(PreInstallPath, q) by {
      var ps := FixPaths(c);
      FixPathsList(c);
      assert Apart(ps[0], q) && Apart(ps[1], q) && Apart(ps[2], q) && Apart(ps[3], q);
      assert Apart(ps[4], q) && Apart(ps[5], q) && Apart(ps[6], q);
    }
    assert Get(d1, q) == Get(st.definition, q) by {
      RemoveDevDependenciesSpec(st, InstallerDeps);
      assert RequireDevPaths(InstallerDeps) == [RequireDevPath("composer/composer")];
    }
    assert Get(d2, q) == Get(d1, q) by {
      RewriteAutoloadSpec(d1, c);
    }
    RemoveInstallerScriptsSpec(d2);
  }

  /** One entry apart from what addPackages writes or removes. */
  lemma AddKeeps(st: State, p: Protocol, parseStability: string -> string, q: Path)
    requires AddPackages(st, p, parseStability).Success?
    requires ApartFromAll(q, PackagePaths(PackagesFor(p)))
    ensures Get(AddPackages(st, p, parseStability).value.definition, q) == Get(st.definition, q)
  {
    AddPackagesSpec(st, p, parseStability);
  }

  /** An entry apart from what fixComposerDefinition and addPackages write survives both. */
  lemma FixThenAddKeeps(st1: State, c: Choices, parseStability: string -> string, q: Path)
    requires FixComposerDefinition(st1, c).Success?
    requires AddPackages(FixComposerDefinition(st1, c).value, c.protocol, parseStability).Success?
    requires ApartFromAll(q, FixPaths(c)) && ApartFromAll(q, PackagePaths(PackagesFor(c.protocol)))
    ensures Get(AddPackages(FixComposerDefinition(st1, c).value, c.protocol, parseStability).value.definition, q)
         == Get(st1.definition, q)
  {
    FixKeeps(st1, c, q);
    AddKeeps(FixComposerDefinition(st1, c).value, c.protocol, parseStability, q);
  }

  /** The entries setupForProtocol writes survive the later edits. */
  lemma ConfigureSetupFacts(st: State, c: Choices, parseStability: string -> string)
    requires Configure(st, c, parseStability).Success?
    ensures var r := Configure(st, c, parseStability).value;
      && Get(r.definition, ServerNamePath) == Some(Str(c.serverName))
      && (c.protocol == Http ==>
            && Get(r.definition, GeneratorClientPath) == Some(GeneratorClient)
            && Get(r.definition, KuiperConfigurationPath) == Some(KuiperConfiguration))
  {
    var st1 := SetupForProtocol(st, c).value;
    assert Get(st1.definition, ServerNamePath) == Some(Str(c.serverName)) by {
      SetupForProtocolSpec(st, c);
    }
    ExtraApartFromLaterEdits(c, ServerNamePath);
    FixThenAddKeeps(st1, c, parseStability, ServerNamePath);
    if c.protocol == Http {
      assert Get(st1.definition, GeneratorClientPath) == Some(GeneratorClient)
          && Get(st1.definition, KuiperConfigurationPath) == Some(KuiperConfiguration) by {
        SetupForProtocolSpec(st, c);
      }
      ExtraApartFromLaterEdits(c, GeneratorClientPath);
      FixThenAddKeeps(st1, c, parseStability, GeneratorClientPath);
      ExtraApartFromLaterEdits(c, KuiperConfigurationPath);
      FixThenAddKeeps(st1, c, parseStability, KuiperConfigurationPath);
    }
  }

  /** A path under extra is apart from everything fixComposerDefinition and addPackages touch. */
  lemma ExtraApartFromLaterEdits(c: Choices, q: Path)
    requires |q| > 0 && q[0] == "extra"
    ensures ApartFromAll(q, FixPaths(c)) && ApartFromAll(q, PackagePaths(PackagesFor(c.protocol)))
  {
    var fix := FixPaths(c);
    assert fix[0] == RequireDevPath("composer/composer");
    forall i | 0 <= i < |fix| ensures Apart(fix[i], q) {
      assert fix[i][0] != "extra";
    }
    var pkgs := PackagePaths(PackagesFor(c.protocol));
    PackagePathsFor(c.protocol);
  }

  /** A path outside require, and outside slim/slim's require-dev entry, is apart from what addPackages touches. */
  lemma ApartFromPackagePaths(p: Protocol, q: Path)
    requires |q| > 0 && q[0] != "require"
    requires q[0] == "require-dev" ==> |q| > 1 && q[1] != "slim/slim"
    ensures ApartFromAll(q, PackagePaths(PackagesFor(p)))
  {
    var pkgs := PackagePaths(PackagesFor(p));
    PackagePathsFor(p);
    if p == Http && q[0] == "require-dev" {
      assert RequireDevPath("slim/slim")[1..] == ["slim/slim"];
      assert Apart(RequireDevPath("slim/slim")[1..], q[1..]);
    }
  }

  /** The entries fixComposerDefinition writes or removes survive addPackages. */
  lemma ConfigureFixFacts(st: State, c: Choices, parseStability: string -> string)
    requires Configure(st, c, parseStability).Success?
    ensures var r := Configure(st, c, parseStability).value; var ns := NamespacePrefix(c.namespace);
      && Get(r.definition, NamePath) == Some(Str(c.packageName))
      && (ns != InstallerAutoloadKey ==> Get(r.definition, AutoloadPath(ns)) == Some(Str("src/")))
      && Get(r.definition, AutoloadDevPath(ns)) == Some(Str("tests/"))
      && Get(r.definition, AutoloadPath(InstallerAutoloadKey)) == None
      && Get(r.definition, PreUpdatePath) == None
      && Get(r.definition, PreInstallPath) == None
      && Get(r.definition, RequireDevPath("composer/composer")) == None
      && "composer/composer" !in r.devRequireLinks
      && "composer/composer" !in r.stabilityFlags
  {
    ConfigureStages(st, c, parseStability);
    var st1 := SetupForProtocol(st, c).value;
    var st2 := FixComposerDefinition(st1, c).value;
    FixEntriesSurviveAdd(st1, c, parseStability);
    InstallerDepStaysOut(st2, c.protocol, parseStability);
  }

  /** The edits of `install` as their three stages, each of which succeeds. */
  lemma ConfigureStages(st: State, c: Choices, parseStability: string -> string)
    requires Configure(st, c, parseStability).Success?
    ensures SetupForProtocol(st, c).Success?
    ensures var st1 := SetupForProtocol(st, c).value;
      && FixComposerDefinition(st1, c).Success?
      && AddPackages(FixComposerDefinition(st1, c).value, c.protocol, parseStability).Success?
      && Configure(st, c, parseStability).value
         == AddPackages(FixComposerDefinition(st1, c).value, c.protocol, parseStability).value
  {
  }

  /** The manifest entries fixComposerDefinition writes or removes are unchanged by addPackages. */
  lemma FixEntriesSurviveAdd(st1: State, c: Choices, parseStability: string -> string)
    requires FixComposerDefinition(st1, c).Success?
    requires AddPackages(FixComposerDefinition(st1, c).value, c.protocol, parseStability).Success?
    ensures var r := AddPackages(FixComposerDefinition(st1, c).value, c.protocol, parseStability).value;
      var ns := NamespacePrefix(c.namespace);
      && Get(r.definition, NamePath) == Some(Str(c.packageName))
      && (ns != InstallerAutoloadKey ==> Get(r.definition, AutoloadPath(ns)) == Some(Str("src/")))
      && Get(r.definition, AutoloadDevPath(ns)) == Some(Str("tests/"))
      && Get(r.definition, AutoloadPath(InstallerAutoloadKey)) == None
      && Get(r.definition, PreUpdatePath) == None
      && Get(r.definition, PreInstallPath) == None
      && Get(r.definition, RequireDevPath("composer/composer")) == None
  {
    var ns := NamespacePrefix(c.namespace);
    var st2 := FixComposerDefinition(st1, c).value;
    FixComposerDefinitionWrites(st1, c);
    AddKeepsOutsideRequire(st2, c.protocol, parseStability, NamePath);
    AddKeepsOutsideRequire(st2, c.protocol, parseStability, AutoloadPath(ns));
    AddKeepsOutsideRequire(st2, c.protocol, parseStability, AutoloadDevPath(ns));
    AddKeepsOutsideRequire(st2, c.protocol, parseStability, AutoloadPath(InstallerAutoloadKey));
    AddKeepsOutsideRequire(st2, c.protocol, parseStability, PreUpdatePath);
    AddKeepsOutsideRequire(st2, c.protocol, parseStability, PreInstallPath);
    AddKeepsOutsideRequire(st2, c.protocol, parseStability, RequireDevPath("composer/composer"));
  }

  /** addPackages leaves alone every entry outside require and outside slim/slim's require-dev entry. */
  lemma AddKeepsOutsideRequire(st: State, p: Protocol, parseStability: string -> string, q: Path)
    requires AddPackages(st, p, parseStability).Success?
    requires |q| > 0 && q[0] != "require"
    requires q[0] == "require-dev" ==> |q| > 1 && q[1] != "slim/slim"
    ensures Get(AddPackages(st, p, parseStability).value.definition, q) == Get(st.definition, q)
  {
    ApartFromPackagePaths(p, q);
    AddKeeps(st, p, parseStability, q);
  }

  /** Once fixComposerDefinition has dropped composer/composer from the dev links and flags, addPackages keeps it out. */
  lemma InstallerDepStaysOut(st2: State, p: Protocol, parseStability: string -> string)
    requires AddPackages(st2, p, parseStability).Success?
    ensures var r := AddPackages(st2, p, parseStability).value;
      && ("composer/composer" !in st2.devRequireLinks ==> "composer/composer" !in r.devRequireLinks)
      && ("composer/composer" !in st2.stabilityFlags ==> "composer/composer" !in r.stabilityFlags)
  {
    var r := AddPackages(st2, p, parseStability).value;
    AddPackagesSpec(st2, p, parseStability);
    if p == Http {
      assert "composer/composer" in r.devRequireLinks ==> "composer/composer" in r.devRequireLinks - {"slim/slim"};
      assert "composer/composer" in r.stabilityFlags ==> "composer/composer" in r.stabilityFlags - {"slim/slim"};
    }
  }

  /** The http skeleton's slim/slim requirement is in place at the end, and slim/slim is no dev requirement. */
  lemma ConfigureAddFacts(st: State, c: Choices, parseStability: string -> string)
    requires Configure(st, c, parseStability).Success?
    ensures var r := Configure(st, c, parseStability).value;
      c.protocol == Http ==>
        && Get(r.definition, RequirePath("slim/slim")) == Some(Str("^4.0"))
        && "slim/slim" in r.requireLinks
        && r.requireLinks["slim/slim"] == Link("__root__", "slim/slim", "requires", "^4.0")
        && Get(r.definition, RequireDevPath("slim/slim")) == None
        && "slim/slim" !in r.devRequireLinks
  {
    var st1 := SetupForProtocol(st, c).value;
    var st2 := FixComposerDefinition(st1, c).value;
    AddPackagesSpec(st2, c.protocol, parseStability);
  }

  /**
   * The links and stability flags `install` leaves: for tars, the
   * skeleton's with composer/composer dropped from the dev links and the
   * flags; for http, the same except for slim/slim's entries.
   */
  lemma ConfigureLinkFrame(st: State, c: Choices, parseStability: string -> string)
    requires Configure(st, c, parseStability).Success?
    ensures var r := Configure(st, c, parseStability).value;
      && (c.protocol == Tars ==>
            && r.requireLinks == st.requireLinks
            && r.devRequireLinks == st.devRequireLinks - {"composer/composer"}
            && r.stabilityFlags == st.stabilityFlags - {"composer/composer"})
      && (c.protocol == Http ==>
            && r.requireLinks - {"slim/slim"} == st.requireLinks - {"slim/slim"}
            && r.devRequireLinks - {"slim/slim"} == st.devRequireLinks - {"composer/composer", "slim/slim"}
            && r.stabilityFlags - {"slim/slim"} == st.stabilityFlags - {"composer/composer", "slim/slim"})
  {
    ConfigureStages(st, c, parseStability);
    var st1 := SetupForProtocol(st, c).value;
    var st2 := FixComposerDefinition(st1, c).value;
    var r := AddPackages(st2, c.protocol, parseStability).value;
    assert st1.requireLinks == st.requireLinks && st1.devRequireLinks == st.devRequireLinks
        && st1.stabilityFlags == st.stabilityFlags by {
      SetupForProtocolSpec(st, c);
    }
    FixComposerDefinitionLinks(st1, c);
    AddPackagesLinks(st2, c.protocol, parseStability);
    if c.protocol == Http {
      MinusBoth(st.devRequireLinks, "composer/composer", "slim/slim");
      MinusBoth(st.stabilityFlags, "composer/composer", "slim/slim");
    }
  }

  /** Removing two keys one after the other removes both. */
  lemma MinusBoth<V>(m: map<string, V>, a: string, b: string)
    ensures m - {a} - {b} == m - {a, b}
  {
  }


  /** addPackages changes links and flags only at slim/slim, and only for http. */
  lemma AddPackagesLinks(st: State, p: Protocol, parseStability: string -> string)
    requires AddPackages(st, p, parseStability).Success?
    ensures var r := AddPackages(st, p, parseStability).value;
      && (p == Tars ==> r.requireLinks == st.requireLinks && r.devRequireLinks == st.devRequireLinks
                        && r.stabilityFlags == st.stabilityFlags)
      && (p == Http ==> r.requireLinks - {"slim/slim"} == st.requireLinks - {"slim/slim"}
                        && r.devRequireLinks - {"slim/slim"} == st.devRequireLinks - {"slim/slim"}
                        && r.stabilityFlags - {"slim/slim"} == st.stabilityFlags - {"slim/slim"})
  {
    AddPackagesSpec(st, p, parseStability);
  }

  /** fixComposerDefinition drops composer/composer from the dev links and the flags, and changes no other link or flag. */
  lemma FixComposerDefinitionLinks(st: State, c: Choices)
    requires FixComposerDefinition(st, c).Success?
    ensures var r := FixComposerDefinition(st, c).value;
      && r.requireLinks == st.requireLinks
      && r.devRequireLinks == st.devRequireLinks - {"composer/composer"}
      && r.stabilityFlags == st.stabilityFlags - {"composer/composer"}
  {
    FixStages(st, c);
    RemoveDevDependenciesSpec(st, InstallerDeps);
    assert (set d | d in InstallerDeps) == {"composer/composer"};
  }

  /** Every entry apart from the paths install writes is as it was in the skeleton. */
  lemma ConfigureKeepsApart(st: State, c: Choices, parseStability: string -> string, q: Path)
    requires Configure(st, c, parseStability).Success?
    requires ApartFromAll(q, ConfigurePaths(c))
    ensures Get(Configure(st, c, parseStability).value.definition, q) == Get(st.definition, q)
  {
    var st1 := SetupForProtocol(st, c).value;
    var setup := SetupPaths(c.protocol);
    var fix := FixPaths(c);
    ApartFromAllConcat(q, setup + fix, PackagePaths(PackagesFor(c.protocol)));
    ApartFromAllConcat(q, setup, fix);
    SetupKeeps(st, c, q);
    FixThenAddKeeps(st1, c, parseStability, q);
  }

  /**
   * `updateRootPackage` hands Composer the links and flags as edited, and
   * views of the manifest's autoload, autoload-dev and extra sections: a
   * key path read inside each view reads what the manifest holds under
   * that section; a missing extra becomes an empty array.
   */
  lemma UpdateRootPackageViews(st: State, q: Path)
    requires |q| > 0
    ensures var rp := UpdateRootPackage(st);
      && rp.requireLinks == st.requireLinks
      && rp.devRequireLinks == st.devRequireLinks
      && rp.stabilityFlags == st.stabilityFlags
      && Get(rp.autoload, q) == Get(st.definition, ["autoload"] + q)
      && Get(rp.devAutoload, q) == Get(st.definition, ["autoload-dev"] + q)
      && Get(rp.extra, q) == Get(st.definition, ["extra"] + q)
      && (Get(st.definition, ["extra"]) == None ==> rp.extra == Obj(map[]))
  {
    GetConcat(st.definition, ["autoload"], q);
    GetConcat(st.definition, ["autoload-dev"], q);
    GetConcat(st.definition, ["extra"], q);
  }

  /**
   * After `install`'s edits, the root package Composer continues with maps
   * the project namespace to src/ and tests/, no longer autoloads the
   * installer, and carries the server name under extra.tars.
   */
  lemma ConfiguredRootPackage(st: State, c: Choices, parseStability: string -> string)
    requires Configure(st, c, parseStability).Success?
    ensures var rp := UpdateRootPackage(Configure(st, c, parseStability).value); var ns := NamespacePrefix(c.namespace);
      && (ns != InstallerAutoloadKey ==> Get(rp.autoload, ["psr-4", ns]) == Some(Str("src/")))
      && Get(rp.devAutoload, ["psr-4", ns]) == Some(Str("tests/"))
      && Get(rp.autoload, ["psr-4", InstallerAutoloadKey]) == None
      && Get(rp.extra, ["tars", "serverName"]) == Some(Str(c.serverName))
  {
    var r := Configure(st, c, parseStability).value;
    var ns := NamespacePrefix(c.namespace);
    RootPackagePaths(ns);
    ConfigureSpec(st, c, parseStability);
    UpdateRootPackageViews(r, ["psr-4", ns]);
    UpdateRootPackageViews(r, ["psr-4", InstallerAutoloadKey]);
    UpdateRootPackageViews(r, ["tars", "serverName"]);
  }

  /** The document paths the root package's sections are read from, split at the section. */
  lemma RootPackagePaths(ns: string)
    ensures ["autoload"] + ["psr-4", ns] == AutoloadPath(ns)
    ensures ["autoload-dev"] + ["psr-4", ns] == AutoloadDevPath(ns)
    ensures ["autoload"] + ["psr-4", InstallerAutoloadKey] == AutoloadPath(InstallerAutoloadKey)
    ensures ["extra"] + ["tars", "serverName"] == ServerNamePath
  {
  }

  /** Every path in `paths` can be written through in `d`. */
  predicate Ready(d: Json, paths: seq<Path>)
  {
    forall q :: q in paths ==> Shaped(d, q)
  }

  /** A write through a shaped path succeeds and keeps the other paths shaped, as long as it plants nothing above them. */
  lemma SetReady(d: Json, p: Path, v: Json, later: seq<Path>)
    requires Shaped(d, p) && Ready(d, later)
    requires forall q :: q in later ==> !Extends(p, q)
    ensures Set(d, p, v).Success? && Ready(Set(d, p, v).value, later)
  {
    SetSucceedsIffShaped(d, p, v);
    forall q | q in later
      ensures Shaped(Set(d, p, v).value, q)
    {
      SetKeepsShaped(d, p, v, q);
    }
  }

  /** An unset through a shaped path succeeds and keeps every other path shaped. */
  lemma UnsetReady(d: Json, p: Path, later: seq<Path>)
    requires |p| > 0 && Shaped(d, p) && Ready(d, later)
    ensures Unset(d, p).Success? && Ready(Unset(d, p).value, later)
  {
    ShapedUnsetSucceeds(d, p);
    forall q | q in later
      ensures Shaped(Unset(d, p).value, q)
    {
      UnsetKeepsShaped(d, p, q);
    }
  }

  /** Nothing written under one section lies above a path in another. */
  lemma OtherSectionsNotExtended(p: Path, later: seq<Path>)
    requires |p| > 0
    requires forall q :: q in later ==> |q| > 0 && q[0] != p[0]
    ensures forall q :: q in later ==> !Extends(p, q)
  {
    forall q | q in later
      ensures !Extends(p, q)
    {
      if |p| < |q| {
        assert q[..|p|][0] == q[0];
      }
    }
  }

  /** Readiness of a concatenation is readiness of both parts. */
  lemma ReadyConcat(d: Json, a: seq<Path>, b: seq<Path>)
    ensures Ready(d, a + b) <==> Ready(d, a) && Ready(d, b)
  {
    assert forall q :: q in a + b <==> q in a || q in b;
  }

  /** setupForProtocol cannot fail when the extra section and its tars and kuiper stanzas are objects, null, false or absent. */
  lemma SetupSucceeds(st: State, c: Choices, later: seq<Path>)
    requires Ready(st.definition, SetupPaths(c.protocol)) && Ready(st.definition, later)
    requires forall q :: q in later ==> |q| > 0 && q[0] != "extra"
    ensures SetupForProtocol(st, c).Success?
    ensures Ready(SetupForProtocol(st, c).value.definition, later)
  {
    var d0 := st.definition;
    assert Shaped(d0, ServerNamePath) by { assert ServerNamePath in SetupPaths(c.protocol); }
    OtherSectionsNotExtended(ServerNamePath, later);
    match c.protocol
    case Tars =>
      SetReady(d0, ServerNamePath, Str(c.serverName), later);
    case Http =>
      SetupHttpSucceeds(d0, c.serverName, later);
  }

  /** The three writes of the http branch, each through an extra stanza the others leave writable. */
  lemma SetupHttpSucceeds(d0: Json, serverName: string, later: seq<Path>)
    requires Ready(d0, [ServerNamePath, GeneratorClientPath, KuiperConfigurationPath]) && Ready(d0, later)
    requires forall q :: q in later ==> |q| > 0 && q[0] != "extra"
    ensures Set(d0, ServerNamePath, Str(serverName)).Success?
    ensures var d1 := Set(d0, ServerNamePath, Str(serverName)).value;
      && Set(d1, GeneratorClientPath, GeneratorClient).Success?
      && var d2 := Set(d1, GeneratorClientPath, GeneratorClient).value;
      && Set(d2, KuiperConfigurationPath, KuiperConfiguration).Success?
      && Ready(Set(d2, KuiperConfigurationPath, KuiperConfiguration).value, later)
  {
    OtherSectionsNotExtended(ServerNamePath, later);
    OtherSectionsNotExtended(GeneratorClientPath, later);
    OtherSectionsNotExtended(KuiperConfigurationPath, later);
    var ps := [ServerNamePath, GeneratorClientPath, KuiperConfigurationPath];
    assert Shaped(d0, ServerNamePath) && Shaped(d0, GeneratorClientPath) && Shaped(d0, KuiperConfigurationPath) by {
      assert ps[0] == ServerNamePath && ps[1] == GeneratorClientPath && ps[2] == KuiperConfigurationPath;
    }
    assert !Extends(ServerNamePath, GeneratorClientPath) by {
      assert GeneratorClientPath[..3][2][0] == 'g' && ServerNamePath[2][0] == 's';
    }
    SetReady(d0, ServerNamePath, Str(serverName), later);
    var d1 := Set(d0, ServerNamePath, Str(serverName)).value;
    SetKeepsShaped(d0, ServerNamePath, Str(serverName), GeneratorClientPath);
    SetKeepsShaped(d0, ServerNamePath, Str(serverName), KuiperConfigurationPath);
    SetReady(d1, GeneratorClientPath, GeneratorClient, later);
    var d2 := Set(d1, GeneratorClientPath, GeneratorClient).value;
    SetKeepsShaped(d1, GeneratorClientPath, GeneratorClient, KuiperConfigurationPath);
    SetReady(d2, KuiperConfigurationPath, KuiperConfiguration, later);
  }

  /** The dependency loop cannot fail when require-dev is an object, null, false or absent. */
  lemma {:induction false} RemoveDevDependenciesSucceeds(st: State, deps: seq<string>, later: seq<Path>)
    requires Ready(st.definition, RequireDevPaths(deps)) && Ready(st.definition, later)
    ensures RemoveDevDependencies(st, deps).Success?
    ensures Ready(RemoveDevDependencies(st, deps).value.definition, later)
    decreases |deps|
  {
    if |deps| > 0 {
      var rest := RequireDevPaths(deps[1..]);
      assert RequireDevPaths(deps)[0] == RequireDevPath(deps[0]);
      forall q | q in rest
        ensures q in RequireDevPaths(deps)
      {
        var i :| 0 <= i < |rest| && rest[i] == q;
        assert RequireDevPaths(deps)[i + 1] == q;
      }
      UnsetReady(st.definition, RequireDevPath(deps[0]), rest + later);
      var st1 := RemoveDevDependency(st, deps[0]).value;
      RemoveDevDependenciesSucceeds(st1, deps[1..], later);
    }
  }

  /** The name and autoload rules cannot fail when autoload, autoload-dev and their psr-4 maps are objects, null, false or absent. */
  lemma RewriteAutoloadSucceeds(d: Json, c: Choices, later: seq<Path>)
    requires Ready(d, AutoloadPaths(c)) && Ready(d, later)
    requires forall q :: q in later ==> |q| > 0 && q[0] !in {"name", "autoload", "autoload-dev"}
    ensures RewriteAutoload(d, c).Success?
    ensures Ready(RewriteAutoload(d, c).value, later)
  {
    var ns := NamespacePrefix(c.namespace);
    var key := AutoloadPath(InstallerAutoloadKey);
    OtherSectionsNotExtended(NamePath, later);
    OtherSectionsNotExtended(AutoloadPath(ns), later);
    OtherSectionsNotExtended(AutoloadDevPath(ns), later);
    var ps := AutoloadPaths(c);
    assert Shaped(d, NamePath) && Shaped(d, AutoloadPath(ns)) && Shaped(d, AutoloadDevPath(ns)) && Shaped(d, key) by {
      assert ps[0] == NamePath && ps[1] == AutoloadPath(ns) && ps[2] == AutoloadDevPath(ns) && ps[3] == key;
    }
    assert !Extends(NamePath, AutoloadPath(ns)) && !Extends(NamePath, AutoloadDevPath(ns)) && !Extends(NamePath, key) by {
      assert NamePath[0][0] == 'n';
      assert AutoloadPath(ns)[..1][0][0] == 'a' && AutoloadDevPath(ns)[..1][0][0] == 'a' && key[..1][0][0] == 'a';
    }
    SetReady(d, NamePath, Str(c.packageName), later);
    var d1 := Set(d, NamePath, Str(c.packageName)).value;
    SetKeepsShaped(d, NamePath, Str(c.packageName), AutoloadPath(ns));
    SetKeepsShaped(d, NamePath, Str(c.packageName), AutoloadDevPath(ns));
    SetKeepsShaped(d, NamePath, Str(c.packageName), key);
    SetReady(d1, AutoloadPath(ns), Str("src/"), later);
    var d2 := Set(d1, AutoloadPath(ns), Str("src/")).value;
    SetKeepsShaped(d1, AutoloadPath(ns), Str("src/"), AutoloadDevPath(ns));
    SetKeepsShaped(d1, AutoloadPath(ns), Str("src/"), key);
    SetReady(d2, AutoloadDevPath(ns), Str("tests/"), later);
    var d3 := Set(d2, AutoloadDevPath(ns), Str("tests/")).value;
    SetKeepsShaped(d2, AutoloadDevPath(ns), Str("tests/"), key);
    UnsetReady(d3, key, later);
  }

  /** Removing the hooks cannot fail when the scripts section is an object, null, false or absent. */
  lemma RemoveInstallerScriptsSucceeds(d: Json, later: seq<Path>)
    requires Ready(d, [PreUpdatePath, PreInstallPath]) && Ready(d, later)
    ensures RemoveInstallerScripts(d).Success?
    ensures Ready(RemoveInstallerScripts(d).value, later)
  {
    UnsetReady(d, PreUpdatePath, [PreInstallPath] + later);
    UnsetReady(Unset(d, PreUpdatePath).value, PreInstallPath, later);
  }

  /** Package paths are two keys long. */
  lemma {:induction false} PackagePathsLength(entries: seq<(string, string)>)
    ensures forall q :: q in PackagePaths(entries) ==> |q| == 2
    decreases |entries|
  {
    if |entries| > 0 {
      PackagePathsLength(entries[1..]);
    }
  }

  /** The package loop cannot fail when require and require-dev are objects, null, false or absent. */
  lemma {:induction false} AddPackageListSucceeds(st: State, entries: seq<(string, string)>, parseStability: string -> string)
    requires Ready(st.definition, PackagePaths(entries))
    ensures AddPackageList(st, entries, parseStability).Success?
    decreases |entries|
  {
    if |entries| > 0 {
      var (name, version) := entries[0];
      var rest := PackagePaths(entries[1..]);
      var all := PackagePaths(entries);
      assert all == [RequirePath(name), RequireDevPath(name)] + rest;
      PackagePathsLength(entries[1..]);
      UnsetReady(st.definition, RequireDevPath(name), [RequirePath(name)] + rest);
      var d1 := Unset(st.definition, RequireDevPath(name)).value;
      SetReady(d1, RequirePath(name), Str(version), rest);
      AddPackageListSucceeds(AddPackage(st, name, version, parseStability).value, entries[1..], parseStability);
    }
  }

  /**
   * `install`'s manifest edits cannot raise an error when every section
   * they pass through (extra, extra.tars, extra.tars.generator,
   * extra.kuiper, require, require-dev, autoload, autoload-dev and their
   * psr-4 maps, scripts) is an object, null, false or absent.
   */
  lemma ConfigureSucceeds(st: State, c: Choices, parseStability: string -> string)
    requires Ready(st.definition, ConfigurePaths(c))
    ensures Configure(st, c, parseStability).Success?
  {
    var setup := SetupPaths(c.protocol);
    var fix := FixPaths(c);
    var pkgs := PackagePaths(PackagesFor(c.protocol));
    assert Ready(st.definition, setup) && Ready(st.definition, fix + pkgs) by {
      assert ConfigurePaths(c) == setup + (fix + pkgs);
      ReadyConcat(st.definition, setup, fix + pkgs);
    }
    assert SetupForProtocol(st, c).Success? && Ready(SetupForProtocol(st, c).value.definition, fix + pkgs) by {
      FixPathsSections(c);
      SetupSucceeds(st, c, fix + pkgs);
    }
    var st1 := SetupForProtocol(st, c).value;
    assert FixComposerDefinition(st1, c).Success? && Ready(FixComposerDefinition(st1, c).value.definition, pkgs) by {
      ReadyConcat(st1.definition, fix, pkgs);
      PackagePathsFor(c.protocol);
      FixSucceeds(st1, c, pkgs);
    }
    var st2 := FixComposerDefinition(st1, c).value;
    assert AddPackages(st2, c.protocol, parseStability).Success? by {
      AddPackageListSucceeds(st2, PackagesFor(c.protocol), parseStability);
    }
  }

  /** The sections fixComposerDefinition and addPackages work in, none of them extra. */
  lemma FixPathsSections(c: Choices)
    ensures forall q :: q in FixPaths(c) + PackagePaths(PackagesFor(c.protocol)) ==> |q| > 0 && q[0] != "extra"
  {
    PackagePathsFor(c.protocol);
    assert RequireDevPaths(InstallerDeps) == [RequireDevPath("composer/composer")];
  }

  /** fixComposerDefinition cannot fail when require-dev, autoload, autoload-dev, their psr-4 maps and scripts are objects, null, false or absent. */
  lemma FixSucceeds(st: State, c: Choices, later: seq<Path>)
    requires Ready(st.definition, FixPaths(c)) && Ready(st.definition, later)
    requires forall q :: q in later ==> |q| > 0 && q[0] !in {"name", "autoload", "autoload-dev"}
    ensures FixComposerDefinition(st, c).Success?
    ensures Ready(FixComposerDefinition(st, c).value.definition, later)
  {
    var deps := RequireDevPaths(InstallerDeps);
    var autoload := AutoloadPaths(c);
    var scripts := [PreUpdatePath, PreInstallPath];
    FixPathsSplit(c);
    ReadyConcat(st.definition, deps + autoload, scripts);
    ReadyConcat(st.definition, deps, autoload);
    ReadyConcat(st.definition, scripts, later);
    ReadyConcat(st.definition, autoload, scripts + later);
    RemoveDevDependenciesSucceeds(st, InstallerDeps, autoload + (scripts + later));
    var st1 := RemoveDevDependencies(st, InstallerDeps).value;
    ReadyConcat(st1.definition, autoload, scripts + later);
    ScriptsOutsideAutoload(later);
    RewriteAutoloadSucceeds(st1.definition, c, scripts + later);
    var d := RewriteAutoload(st1.definition, c).value;
    ReadyConcat(d, scripts, later);
    RemoveInstallerScriptsSucceeds(d, later);
  }

  /** The paths fixComposerDefinition edits, in the order of its three steps. */
  lemma FixPathsSplit(c: Choices)
    ensures FixPaths(c) == RequireDevPaths(InstallerDeps) + AutoloadPaths(c) + [PreUpdatePath, PreInstallPath]
  {
  }

  /** The script hooks lie outside the name and autoload sections, as the later paths do. */
  lemma ScriptsOutsideAutoload(later: seq<Path>)
    requires forall q :: q in later ==> |q| > 0 && q[0] !in {"name", "autoload", "autoload-dev"}
    ensures forall q :: q in [PreUpdatePath, PreInstallPath] + later ==> |q| > 0 && q[0] !in {"name", "autoload", "autoload-dev"}
  {
  }

  /** A skeleton manifest: composer/composer as a dev requirement and the installer hooked into pre-install-cmd. */
  const SkeletonManifest: Json :=
    Obj(map[
      "require-dev" := Obj(map["composer/composer" := Str("*")]),
      "scripts" := Obj(map["pre-install-cmd" := Str("wenbinye\\tars\\installer\\Script::install")])
    ])

  /** Every level the tars install passes through in the skeleton manifest is an object or absent. */
  lemma SkeletonReady(c: Choices)
    requires c.protocol == Tars
    ensures Ready(SkeletonManifest, ConfigurePaths(c))
  {
    var d := SkeletonManifest;
    var ns := NamespacePrefix(c.namespace);
    PackagePathsFor(c.protocol);
    assert RequireDevPaths(InstallerDeps) == [RequireDevPath("composer/composer")];
    assert ConfigurePaths(c) == [ServerNamePath, RequireDevPath("composer/composer"), NamePath, AutoloadPath(ns),
      AutoloadDevPath(ns), AutoloadPath(InstallerAutoloadKey), PreUpdatePath, PreInstallPath];
    forall q | q in ConfigurePaths(c)
      ensures Shaped(d, q)
    {
      ShapedStep(d, q);
      if q[0] in d.fields {
        var child := d.fields[q[0]];
        assert child.Obj?;
        ShapedStep(child, q[1..]);
      } else {
        ShapedNull(q[1..]);
      }
    }
  }

  /**
   * The end-to-end case: from the skeleton manifest, answering "2" (tars)
   * with namespace App\Demo, install leaves composer/composer out of
   * require-dev, both installer hooks gone, App\Demo\ mapped to src/ and
   * the server name under extra.tars.
   */
  lemma EndToEndTars(packageName: string, appName: string, serverName: string,
                     devRequireLinks: map<string, Link>, parseStability: string -> string)
    ensures Protocols.FromAnswer("2") == Some(Tars)
    ensures var c := Choices(packageName, Protocols.FromAnswer("2").value, "App\\Demo", appName, serverName);
      var st := State(SkeletonManifest, map[], devRequireLinks, map[]);
      && Configure(st, c, parseStability).Success?
      && var r := Configure(st, c, parseStability).value;
      && Get(r.definition, ["require-dev", "composer/composer"]) == None
      && Get(r.definition, ["scripts", "pre-install-cmd"]) == None
      && Get(r.definition, ["scripts", "pre-update-cmd"]) == None
      && Get(r.definition, ["autoload", "psr-4", "App\\Demo\\"]) == Some(Str("src/"))
      && Get(r.definition, ["extra", "tars", "serverName"]) == Some(Str(serverName))
      && "composer/composer" !in r.devRequireLinks
  {
    MenuAnswers();
    var c := Choices(packageName, Protocols.FromAnswer("2").value, "App\\Demo", appName, serverName);
    assert c.protocol == Tars;
    assert NamespacePrefix(c.namespace) == "App\\Demo\\";
    assert NamespacePrefix(c.namespace) != InstallerAutoloadKey;
    var st := State(SkeletonManifest, map[], devRequireLinks, map[]);
    SkeletonReady(c);
    ConfigureSucceeds(st, c, parseStability);
    ConfigureSpec(st, c, parseStability);
  }
}
