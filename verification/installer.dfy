/**
 * The manifest half of the installer (installer/Script.php): the edits
 * `setupForProtocol`, `fixComposerDefinition` and `addPackages` make to the
 * decoded composer.json and to the root package's link and stability maps,
 * in the order `install` runs them, and the view `updateRootPackage` hands
 * back to Composer.
 */
module Installer {
  import opened Wrappers
  import opened Json
  import opened Protocols
  import opened PhpNumeric

  /** A package link of the root package; the parsed version constraint belongs to Composer and is left out. */
  datatype Link = Link(source: string, target: string, description: string, prettyConstraint: string)

  /** The validated answers of the prompt sequence. */
  datatype Choices = Choices(
    packageName: string,
    protocol: Protocol,
    namespace: string,
    appName: string,
    serverName: string)

  /**
   * The installer's working state: the decoded composer.json and the root
   * package's require links, dev-require links and stability flags, which
   * the installer keeps next to it and edits in step.
   */
  datatype State = State(
    definition: Json,
    requireLinks: map<string, Link>,
    devRequireLinks: map<string, Link>,
    stabilityFlags: map<string, int>)

  /** `$INSTALLER_DEPS`: development dependencies only the installer needs. */
  const InstallerDeps: seq<string> := ["composer/composer"]

  /** The PSR-4 prefix under which the installer itself is autoloaded. */
  const InstallerAutoloadKey := "wenbinye\\tars\\installer\\"

  /** `$REQUIRES`: the packages (name, version constraint) each protocol adds. */
  function PackagesFor(p: Protocol): seq<(string, string)>
  {
    match p
    case Http => [("slim/slim", "^4.0")]
    case Tars => []
  }

  // Composer's `BasePackage::STABILITY_*` levels.
  const StabilityRC := 5
  const StabilityBeta := 10
  const StabilityAlpha := 15
  const StabilityDev := 20

  /** The `switch` over the parsed stability: a flag for dev, alpha, beta and RC; none for anything else. */
  function StabilityFlag(stability: string): Option<int>
  {
    if LooseEquals(stability, "dev") then Some(StabilityDev)
    else if LooseEquals(stability, "alpha") then Some(StabilityAlpha)
    else if LooseEquals(stability, "beta") then Some(StabilityBeta)
    else if LooseEquals(stability, "RC") then Some(StabilityRC)
    else None
  }

  function RequirePath(name: string): Path
  {
    ["require", name]
  }

  function RequireDevPath(name: string): Path
  {
    ["require-dev", name]
  }

  function AutoloadPath(prefix: string): Path
  {
    ["autoload", "psr-4", prefix]
  }

  function AutoloadDevPath(prefix: string): Path
  {
    ["autoload-dev", "psr-4", prefix]
  }

  const NamePath: Path := ["name"]
  const PreUpdatePath: Path := ["scripts", "pre-update-cmd"]
  const PreInstallPath: Path := ["scripts", "pre-install-cmd"]
  const ServerNamePath: Path := ["extra", "tars", "serverName"]
  const GeneratorClientPath: Path := ["extra", "tars", "generator", "client"]
  const KuiperConfigurationPath: Path := ["extra", "kuiper", "configuration"]

  /** The client generator stanza the http protocol adds: one servant mapping. */
  const GeneratorClient: Json :=
    List([Obj(map["servants" := Obj(map["Hello" := Str("FooApp.FooServer.HelloObj")])])])

  /** The kuiper configuration classes the http protocol registers. */
  const KuiperConfiguration: Json :=
    List([
      Str("kuiper\\cache\\CacheConfiguration"),
      Str("kuiper\\web\\WebConfiguration"),
      Str("kuiper\\web\\http\\DiactorosHttpMessageFactoryConfiguration")
    ])

  /** The PSR-4 prefix of the user's namespace. */
  function NamespacePrefix(namespace: string): string
  {
    namespace + "\\"
  }

  /** One pass of the `INSTALLER_DEPS` loop: the dependency leaves require-dev, the dev links and the stability flags. */
  function RemoveDevDependency(st: State, dep: string): Result<State, Fault>
  {
    var d :- Unset(st.definition, RequireDevPath(dep));
    Success(State(d, st.requireLinks, st.devRequireLinks - {dep}, st.stabilityFlags - {dep}))
  }

  function RemoveDevDependencies(st: State, deps: seq<string>): Result<State, Fault>
    decreases |deps|
  {
    if |deps| == 0 then Success(st)
    else
      var st' :- RemoveDevDependency(st, deps[0]);
      RemoveDevDependencies(st', deps[1..])
  }

  /** The package name and autoload rules `fixComposerDefinition` writes; the installer's own prefix goes last. */
  function RewriteAutoload(d: Json, c: Choices): Result<Json, Fault>
  {
    var d1 :- Set(d, NamePath, Str(c.packageName));
    var d2 :- Set(d1, AutoloadPath(NamespacePrefix(c.namespace)), Str("src/"));
    var d3 :- Set(d2, AutoloadDevPath(NamespacePrefix(c.namespace)), Str("tests/"));
    Unset(d3, AutoloadPath(InstallerAutoloadKey))
  }

  /** The two composer hooks that only run the installer. */
  function RemoveInstallerScripts(d: Json): Result<Json, Fault>
  {
    var d1 :- Unset(d, PreUpdatePath);
    Unset(d1, PreInstallPath)
  }

  /** `fixComposerDefinition`. */
  function FixComposerDefinition(st: State, c: Choices): Result<State, Fault>
  {
    var st1 :- RemoveDevDependencies(st, InstallerDeps);
    var d1 :- RewriteAutoload(st1.definition, c);
    var d2 :- RemoveInstallerScripts(d1);
    Success(st1.(definition := d2))
  }

  /**
   * One pass of the `addPackages` loop.  `parseStability` stands for
   * Composer's `VersionParser::parseStability`.
   */
  function AddPackage(st: State, name: string, version: string, parseStability: string -> string): Result<State, Fault>
  {
    var d1 :- Unset(st.definition, RequireDevPath(name));
    var d2 :- Set(d1, RequirePath(name), Str(version));
    var flags :=
      match StabilityFlag(parseStability(version))
      case Some(f) => st.stabilityFlags[name := f]
      case None => st.stabilityFlags;
    Success(State(d2, st.requireLinks[name := Link("__root__", name, "requires", version)], st.devRequireLinks - {name}, flags))
  }

  function AddPackageList(st: State, entries: seq<(string, string)>, parseStability: string -> string): Result<State, Fault>
    decreases |entries|
  {
    if |entries| == 0 then Success(st)
    else
      var st' :- AddPackage(st, entries[0].0, entries[0].1, parseStability);
      AddPackageList(st', entries[1..], parseStability)
  }

  /** `addPackages`. */
  function AddPackages(st: State, p: Protocol, parseStability: string -> string): Result<State, Fault>
  {
    AddPackageList(st, PackagesFor(p), parseStability)
  }

  /** The manifest half of `setupForProtocol` and `setupForHttpProtocol`; the tars branch edits no manifest entry. */
  function SetupForProtocol(st: State, c: Choices): Result<State, Fault>
  {
    var d1 :- Set(st.definition, ServerNamePath, Str(c.serverName));
    match c.protocol
    case Http =>
      var d2 :- Set(d1, GeneratorClientPath, GeneratorClient);
      var d3 :- Set(d2, KuiperConfigurationPath, KuiperConfiguration);
      Success(st.(definition := d3))
    case Tars =>
      Success(st.(definition := d1))
  }

  /** The manifest edits of `install`, in its order. */
  function Configure(st: State, c: Choices, parseStability: string -> string): Result<State, Fault>
  {
    var st1 :- SetupForProtocol(st, c);
    var st2 :- FixComposerDefinition(st1, c);
    AddPackages(st2, c.protocol, parseStability)
  }

  /** What `updateRootPackage` pushes back onto Composer's root package. */
  datatype RootPackage = RootPackage(
    requireLinks: map<string, Link>,
    devRequireLinks: map<string, Link>,
    stabilityFlags: map<string, int>,
    autoload: Json,
    devAutoload: Json,
    extra: Json)

  /** `updateRootPackage`: a missing autoload section reads as null, a missing or null extra as an empty array. */
  function UpdateRootPackage(st: State): RootPackage
  {
    var extra := Get(st.definition, ["extra"]).GetOr(Null);
    RootPackage(
      st.requireLinks,
      st.devRequireLinks,
      st.stabilityFlags,
      Get(st.definition, ["autoload"]).GetOr(Null),
      Get(st.definition, ["autoload-dev"]).GetOr(Null),
      if extra == Null then Obj(map[]) else extra)
  }
}
