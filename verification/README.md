# tars-skeleton installer, modelled in Dafny

`installer/Script.php` is the installer of the tars-skeleton project
template, run from the skeleton's Composer `pre-install-cmd` and
`pre-update-cmd` hooks, before Composer resolves dependencies; once done it
removes both hooks. It asks for a package name, a protocol
(http or tars), a PHP namespace, an application name and a server name. It
then rewrites the new project's `composer.json` and the root package that
Composer keeps in memory, fills placeholders in two template files, and
creates `config.conf` from `config.conf.example`.

This project models the logic of that script that is not I/O:

- **Answer checks** (`validators.dfy`, `pcre.dfy`). The three `preg_match`
  validators are written as explicit character predicates. Each is proved
  equal to a small reference semantics of the PCRE fragment the patterns
  use: bracket classes, concatenation, `*`/`+`, the `^`/`$` anchors and
  unanchored search.
- **Protocol answer** (`protocols.dfy`, `php_numeric.dfy`). This is the
  `switch` of `askProtocol`. PHP compares the answer to each `case` with
  its loose `==`. Between two numeric strings that is a comparison of
  numbers, so PHP 8's numeric-string grammar is modelled with exact
  decimals.
- **Manifest edits** (`json.dfy`, `installer.dfy`, `installer_proofs.dfy`).
  - The decoded `composer.json` is a JSON tree with PHP's semantics for the
    nested write `$a[k1]…[kn] = v` and the nested `unset`. Missing, `null`
    and `false` levels become arrays. Other scalars raise an error, which
    is a `Fault` here.
  - `setupForProtocol`/`setupForHttpProtocol`, `fixComposerDefinition` and
    `addPackages` edit the tree and the root package's require links,
    dev-require links and stability flags, in the order `install` runs
    them (`Configure`). `updateRootPackage` is the view handed back to
    Composer.
  - Every edit is proved to write what it should and to leave every entry
    apart from its own paths unchanged.
  - A success condition says when none of the writes can hit a scalar.
- **Placeholders and small string helpers** (`php_strings.dfy`, `templates.dfy`).
  - `strtr` is one left-to-right pass in which the longest key wins and
    replaced text is never rescanned. `str_replace` is modelled for a
    single search string, and `rtrim` for a character list.
  - On top of these sit the placeholder substitution, `createConfig` and
    the project-root normalisation of the constructor.

Strings are `seq<char>`, each character standing for one byte.

Where the model follows the code rather than the plain reading of the
program's documentation:

- `/^\w+$/` and the namespace pattern carry no `D` modifier, so PCRE's `$`
  also matches before a final newline. `"abc\n"` is therefore a valid
  application name (`Validators.NameMatchesPattern`). The explicit
  predicates say so too, and `NameShape`/`NamespaceShape` give the
  newline-free reading.
- The protocol prompt accepts more than the literal `1` and `2`. `switch`
  compares loosely, so `"01"`, `"1.0"`, `" 2"` and `"2e0"` also select a
  protocol (`Protocols.LooseSpellingsAccepted`).
- Substituted answers are never substituted again. `strtr` does not
  rescan, so a namespace spelled `{AppName}` stays literally `{AppName}`
  (`Templates.NoSecondSubstitution`). The validators keep such an answer
  from reaching `replacePlaceHolder`: no valid namespace, application
  name or server name contains a brace (`Validators.ValidAnswersBraceFree`).
- A one-character namespace such as `A` is rejected: the pattern needs a
  first and a last character.
- The package-name pattern is not anchored. Any string that contains
  `x/y` with `x` and `y` over `[a-z0-9_.-]` is accepted, for example
  `"Acme Corp/foo bar"`. The pattern has no `i` flag, so the
  characters next to the slash must be lower-case.

## Model

| member | source | states |
|---|---|---|
| Validators.NamespaceMatchesPattern | installer/Script.php:315-318 | the explicit namespace predicate holds exactly when the anchored PCRE pattern `^[a-zA-Z_\x7f-\xff][a-zA-Z0-9_\x7f-\xff\\]*[a-zA-Z0-9_\x7f-\xff]$` matches |
| Validators.NamespaceRejects | installer/Script.php:315-318 | a namespace shorter than 2, starting or ending with a backslash, or with a disallowed byte before its last position is rejected |
| Validators.NamespaceShape | installer/Script.php:315-318 | for strings without a final newline: valid iff a head byte, then word/high bytes or backslashes, then a word/high byte |
| Validators.NameMatchesPattern | installer/Script.php:320-323 | the explicit name predicate holds exactly when `^\w+$` matches (ASCII `\w`) |
| Validators.NameShape | installer/Script.php:320-323 | for strings without a final newline: valid iff non-empty and made only of `[A-Za-z0-9_]` |
| Validators.PackageMatchesPattern | installer/Script.php:325-328 | the explicit package predicate (some `/` with a package byte on each side) holds exactly when the unanchored pattern `[a-z0-9_.-]+/[a-z0-9_.-]+` is found somewhere in the string |
| Validators.ValidAnswersBraceFree | installer/Script.php:315-323 | no string the namespace or name validator accepts contains `{`, so no validated answer spells a placeholder token |
| Validators.PackageAcceptsInfix | installer/Script.php:325-328 | any text around a valid `x/y` infix is accepted, because the pattern is unanchored |
| PhpNumeric.RenderRoundTrip | installer/Script.php:268-272 | the canonical decimal spelling of a natural number is a numeric string denoting that number |
| PhpNumeric.LooseEqualsSymmetric | installer/Script.php:268-272 | loose `==` between two strings gives the same answer whichever side is written first |
| PhpNumeric.RenderLooseEquals | installer/Script.php:268-272 | two canonically printed naturals are loosely equal exactly when they are the same number |
| PhpNumeric.LetterFirstNotNumeric | installer/Script.php:218-231 | a string starting with a letter is not numeric, so `case` labels such as `dev` compare exactly |
| Protocols.AnswerSelectsByValue | installer/Script.php:265-276 | an answer selects a protocol iff it is a numeric string whose value is that protocol's menu number |
| Protocols.MenuAnswers | installer/Script.php:258-272 | `1` selects http, `2` selects tars, and so does the default answer `2` |
| Protocols.MenuNumberRoundTrip | installer/Script.php:258-272 | the menu number printed for each protocol selects that protocol |
| Protocols.OnlyMenuNumbersAccepted | installer/Script.php:268-275 | among canonically written naturals exactly 1 and 2 are accepted, each selecting the protocol with that menu number |
| Protocols.NonNumericAnswerRejected | installer/Script.php:268-275 | a non-numeric answer selects nothing, so the prompt repeats |
| Protocols.OtherAnswersRejected | installer/Script.php:268-275 | the `switch` selects nothing for the empty string, `3`, `http` and `tars`; an empty reply at the prompt becomes the default `2` before it gets there |
| Protocols.LooseSpellingsAccepted | installer/Script.php:268-272 | `01` and `1.0` select http, ` 2` and `2e0` select tars |
| Json.SetThenGet | installer/Script.php:183-185 | after a successful nested assignment the assigned value is found at its path |
| Json.SetKeepsApart | installer/Script.php:183-185 | a nested assignment leaves every path that parts from its own unchanged |
| Json.UnsetThenGet | installer/Script.php:177-179 | after a successful nested unset nothing is found at its path |
| Json.UnsetKeepsApart | installer/Script.php:188-192 | a nested unset leaves every path that parts from its own unchanged |
| Json.UnsetKeepsAbsent | installer/Script.php:188-192 | an unset never makes a value appear anywhere |
| Json.SetSucceedsIffShaped | installer/Script.php:183-185 | a nested assignment raises no error iff every level above the leaf is absent, an array, null or false |
| Json.ShapedUnsetSucceeds | installer/Script.php:188-192 | a nested unset raises no error when every level above the leaf is absent, an array, null or false |
| Json.SetKeepsShaped | installer/Script.php:183-185 | an assignment keeps another path writable unless it plants its value strictly above that path's leaf |
| Json.UnsetKeepsShaped | installer/Script.php:188-192 | an unset keeps every path writable |
| Json.GetConcat | installer/Script.php:168-170 | reading a section and then a path inside it is reading the concatenated path |
| InstallerProofs.SetupForProtocolSpec | installer/Script.php:344-376 | the server name is set under extra.tars for both protocols; http also sets the client generator and the kuiper configuration; nothing else in the manifest and none of the link or flag maps change |
| InstallerProofs.SetupSucceeds | installer/Script.php:344-376 | the protocol setup raises no error on a manifest whose traversed levels are writable, and keeps the later edits' paths writable |
| InstallerProofs.RemoveDevDependenciesSpec | installer/Script.php:176-180 | each installer dependency is gone from require-dev, the dev links and the stability flags; the require links and every path apart from the removed ones are kept |
| InstallerProofs.RemoveDevDependenciesKeepAbsent | installer/Script.php:176-180 | removing the installer dependencies makes no manifest entry appear |
| InstallerProofs.RewriteAutoloadSpec | installer/Script.php:183-188 | name is the package name, the namespace maps to src/ and tests/, the installer's own PSR-4 prefix is gone, everything else is kept |
| InstallerProofs.RemoveInstallerScriptsSpec | installer/Script.php:191-192 | both installer hooks are gone from scripts and nothing else changes |
| InstallerProofs.FixComposerDefinitionSpec | installer/Script.php:173-193 | composer/composer leaves require-dev, the dev links and the flags; name and both autoload entries are written; the installer prefix is gone even when the namespace equals it; both hooks are gone; every other entry is unchanged |
| InstallerProofs.FixSucceeds | installer/Script.php:173-193 | `fixComposerDefinition` raises no error when its traversed levels are writable, and keeps the package paths writable |
| InstallerProofs.StabilityFlagSpec | installer/Script.php:218-231 | dev, alpha, beta and RC each give their own flag, exactly; any other stability gives none |
| InstallerProofs.AddPackageSpec | installer/Script.php:209-231 | one package is required at its version, gone from require-dev and the dev links, linked from `__root__`, and flagged only for a non-stable stability; all other paths are kept |
| InstallerProofs.AddPackageListSpec | installer/Script.php:197-232 | every package of the table is added as above; the link and flag maps change only at the table's names; every path apart from the packages' is kept |
| InstallerProofs.AddPackageListSucceeds | installer/Script.php:197-232 | the package loop raises no error when require and require-dev are writable |
| InstallerProofs.AddPackagesSpec | installer/Script.php:90-96 | for tars nothing changes; for http slim/slim is required at `^4.0` and nothing else in the maps changes; no manifest entry outside the package paths changes |
| InstallerProofs.ConfigureSpec | installer/Script.php:150-156 | the manifest after `install`'s edits: server name; for http the extras, slim/slim required and kept out of require-dev and the dev links; name, namespace autoload, no installer prefix or hooks; composer/composer out of require-dev, the dev links and the stability flags; all other entries, links and flags as in the skeleton |
| InstallerProofs.ConfigureLinkFrame | installer/Script.php:150-156 | after the edits, tars keeps the skeleton's links and flags less composer/composer's dev link and flag; http differs from that only at slim/slim |
| InstallerProofs.ConfigureSucceeds | installer/Script.php:150-156 | the edits of `install` raise no error when every level they pass through is absent, an array, null or false |
| InstallerProofs.UpdateRootPackageViews | installer/Script.php:163-171 | the root package gets the edited link and flag maps unchanged, and autoload, autoload-dev and extra as the manifest holds them; a missing extra becomes an empty array |
| InstallerProofs.ConfiguredRootPackage | installer/Script.php:150-156 | after the edits, the root package autoloads the namespace from src/ and tests/, no longer autoloads the installer, and carries the server name |
| InstallerProofs.EndToEndTars | installer/Script.php:140-158 | on the skeleton's manifest, answering `2` selects tars, and with namespace `App\Demo` succeeds and removes the installer dependency and hooks, maps the namespace and records the server name |
| PhpStrings.LongestKeyAt | installer/Script.php:334-339 | the key `strtr` replaces at a position is a present, non-empty prefix and no longer present prefix exists |
| PhpStrings.StrtrLoop | installer/Script.php:334-339 | the single-pass loop over the content computes the same result as the recursive `strtr` definition |
| PhpStrings.StrtrIdentity | installer/Script.php:334-339 | content without the keys' first character is returned unchanged |
| PhpStrings.StrtrInertPrefix | installer/Script.php:334-339 | when every key opens with the same character and a second one from a set, text in which that character is always followed by something outside the set passes through unchanged ahead of the rest |
| PhpStrings.StrtrKeyPrefix | installer/Script.php:334-339 | with prefix-free keys, a key at the front becomes its value and the value is not rescanned |
| PhpStrings.StrtrFillsTemplate | installer/Script.php:334-339 | with prefix-free keys, a template whose text never continues the keys' first character as a key does comes out with each written key replaced by its value, and nothing else |
| PhpStrings.StrReplaceRemovesSuffix | installer/Script.php:392 | removing a suffix that occurs nowhere else gives back the text before it |
| PhpStrings.RTrim | installer/Script.php:119 | the result is a prefix, everything cut off is in the character list, and the result does not end in one |
| Templates.ProtocolTokenSpec | installer/Script.php:338 | `{protocol}` becomes `tars` exactly for the tars protocol, `not_tars` otherwise, and never the token itself |
| Templates.PlaceholdersSpec | installer/Script.php:334-339 | the replacement table has exactly the four tokens, each mapped to its answer |
| Templates.PlaceholdersPrefixFree | installer/Script.php:334-339 | the four tokens start with `{` followed by `n`, `A`, `S` or `p`, and none is a prefix of another |
| Templates.ReplaceFillsTemplate | installer/Script.php:330-342 | a file written as text and placeholders, where no `{` of the text is followed by a token's second character, comes out with each placeholder replaced by its answer |
| Templates.ReplaceKeepsInert | installer/Script.php:330-342 | a file in which no token can start is left as it is |
| Templates.OneHole | installer/Script.php:330-342 | one placeholder between texts in which no token can start becomes its answer |
| Templates.ControllerRewritten | src/controllers/IndexController.php:1-25 | the controller template, whose only opening braces are its namespace token's and two block braces at line ends, comes out with the namespace in place of the token and the code braces kept |
| Templates.NoSecondSubstitution | installer/Script.php:334-339 | an answer that spells another token is inserted literally |
| Templates.ConfigFileName | installer/Script.php:392 | the output file of `config.conf.example` is `config.conf` |
| Templates.TarsNodeReplaced | installer/Script.php:389-391 | `{tarsnode}` becomes `127.0.0.1` in surroundings where no `{` is followed by `t` |
| Templates.CreateConfigSpec | installer/Script.php:384-396 | no example file means no config file; otherwise `config.conf` is written with `{tarsnode}` replaced by `127.0.0.1` |
| Templates.ProjectRootFallback | installer/Script.php:118-119 | a falsy given root (null, `""`, `"0"`) gives the same root as none; a truthy one ignores the resolved directory and is kept up to its trailing separators; the root ends in exactly one `/`, is `/` when nothing is given and `realpath` fails, and is kept when given back |
| Templates.NormaliseRootSpec | installer/Script.php:119 | the root ends in `/`, the character before it is neither `/` nor `\`, the trimmed prefix is kept, and normalising again changes nothing |

## Left out

- Filesystem effects are left out because they are I/O. The model keeps
  only the content and file-name transforms. This covers:
  - `rename`/`remove`/`glob` in `setupForProtocol`, `setupForHttpProtocol`
    and `setupForTarsProtocol`;
  - `file_get_contents`, `file_put_contents` and `file_exists` in
    `replacePlaceHolder` and `createConfig`;
  - `finalizePackage`, which writes composer.json and deletes the
    installer directory.
- The prompt loops are left out because they are driven by a human. The
  model keeps the validators and the answer mapping; a rejected answer is
  `None`. This covers `askPackageName`, `askNamespace`, `askAppName`,
  `askServerName` and the retry of `askProtocol`, their defaults from
  `get_current_user()`/`getcwd()`, and every `io->write` message.
- Composer's own code is not part of this model:
  - `JsonFile` read/write and `Factory::getComposerFile`;
  - `realpath`/`dirname`, which `ProjectRoot` receives as an optional
    resolved directory;
  - `VersionParser::parseConstraints` and the constraint object of a
    `Link`, which keeps only its pretty constraint;
  - the `RootPackageInterface` setters.
- `VersionParser::parseStability` is a function parameter. The
  `BasePackage::STABILITY_*` values are Composer's: RC 5, beta 10,
  alpha 15, dev 20.
- PCRE is modelled only for the classes and operators the three patterns
  use. `\w` is ASCII `[A-Za-z0-9_]`, and a byte is a character below
  U+0100.
- Loose `==` compares numbers exactly. PHP converts to floating point, so
  answers that differ from 1 or 2 only beyond double precision (such as
  `1.00000000000000001`) are accepted by PHP and rejected here.
- Json.Set: writing a string key into a JSON list raises the `KeyIntoList`
  fault. PHP instead adds the key to the array. No path the installer
  writes goes through a list in a well-formed composer.json.
- Json: an object is a map from keys to values. PHP arrays are ordered,
  and a key written for the first time goes to the end. This happens to
  `name` and the new psr-4 entries in `fixComposerDefinition`, and
  `JsonFile` writes that order back. The model keeps only which value
  each key holds. Key order and the position of new keys are not modelled.
  So `Json.SetKeepsApart` and the other frame lemmas promise that values
  are kept, not that their positions are kept.
- Paths use non-numeric string keys only. PHP's conversion of numeric
  string keys to integers is not modelled.
- The `Unknown protocol` exception of `setupForProtocol` cannot be reached.
  A protocol is one of two datatype constructors.
- The missing-file behaviour of `replacePlaceHolder` is not modelled.
  `file_get_contents` on a missing file returns `false` with a warning,
  which depends on the host's error handling.
- `updateRootPackage`: reading a missing `autoload` section gives PHP
  `null` plus a warning. The model gives `Null`, and the warning is left
  out.
- InstallerProofs.ConfigureSucceeds: states a sufficient condition for
  success, not an exact one. A JSON list at require-dev or scripts is
  passed over silently by `unset`, but the condition rules it out.
- InstallerProofs.AddPackageListSpec: requires the table's package names
  to be distinct. The table is a PHP array, so its keys always are.
- Templates.CreateConfigSpec: states the content for an example with one
  `{tarsnode}` in text where no other `{` is followed by `t`. The general case follows from
  `PhpStrings.StrtrFillsTemplate`.
- Validators.NamespaceShape and Validators.NameShape: state the shape only
  for strings without a final newline. `NamespaceMatchesPattern` and
  `NameMatchesPattern` cover all strings.
