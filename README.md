# npm-registry dependency resolver, modelled in Dafny

This project models the core of a small service. Given an npm package name and a version
constraint, the service builds that package's dependency tree.

- **Constraint handling** (src/utils/package.utils.js):
  - `parseVersion` splits a constraint such as `"^1.2.3"`, `"~1.2.x"`, `">= 0.3.0"` or
    `"latest"` into a version string and a qualifier.
  - `hitVersionEndpoint` decides whether the registry's exact-version endpoint can serve it.
  - `chooseVersion` picks an entry from a package's `versions` catalog. It dispatches to
    the caret, tilde, `>` and `<` selectors, or to `getLastVersion`. Each selector scans
    the catalog keys in order and then looks up the key rebuilt from its running best.
- **Tree construction** (src/package.js):
  - A node starts as an empty object `{}`.
  - `assignProperties` fills its `name`, `version` and `dependencies` in one step.
  - `getDependencies` then replaces each dependency's constraint string, in place, with a
    fresh object resolved from that string.
  - A failure is reported to `next` and leaves that node `{}`.

Modules:

- `Text`: digits, numerals, `split`/`join` on one character.
- `Patterns`: hand-written scanners for the regular expressions. An unescaped `.` matches
  any Unicode character except a line terminator (JavaScript: any UTF-16 code unit except
  a line terminator).
- `VersionParsing`: `parseVersion`, `removeXVersionNumber`, `hitVersionEndpoint`.
- `VersionSelection`: `parseVersionNumber`, the selectors, `getLastVersion`, `chooseVersion`.
- `Package`: the resolver. It has a `Node` class for the mutable result object, methods
  for the four async functions, and a specification function `Resolution` that the
  methods are proved against.

How the registry, the catalog and depth are represented:

- The registry is a parameter made of two lookups:
  - the metadata of one version (`/{name}/{version}`);
  - a package's catalog (`/{name}`).
  `None` stands for a failed request.
- A catalog is a sequence of `(key, metadata)` pairs in `Object.keys` order.
- Recursion depth is bounded by `fuel`. A node reached with no fuel left stays `{}`.

The model follows the code as written:

- The caret test is `minor < tempMinor || patch < tempPatch`, not a lexicographic comparison.
- `>=` and `<=` take the exact-version route.
- `versionLargerThan` and `versionLessThan` read `key` before its `const` declaration, so
  they throw a ReferenceError on every non-empty catalog. `VersionLargerThanIntended`
  and `VersionLessThanIntended` model the behaviour their comments describe, and are
  proved separately.

## Model

| member | source | states |
|---|---|---|
| VersionParsing.ParseVersion | src/utils/package.utils.js:144-149 | "latest" and "*" alone give the one-element result holding that string and no qualifier. Only these two inputs give an `undefined` qualifier. |
| VersionParsing.QualifierOfMatches | src/utils/package.utils.js:168-173 | The qualifier is a leading `*`/`^`/`~`. Otherwise it is the first `>` or `<` anywhere, taking a following `=`, and nothing earlier is an angle. It is `null` exactly when the input has no angle. |
| VersionParsing.FindXTriple | src/utils/package.utils.js:152 | Finds the leftmost position where `A.x.C`, `A.x.x` or `A.B.x` matches. `None` means there is no such position. |
| VersionParsing.FindXTripleLeftmost | src/utils/package.utils.js:152 | Against the regular expression itself (`Patterns.XRangeAt`): `FindXTriple` returns a position where `A.x.C`, `A.x.x` or `A.B.x` matches, and no match starts before it. `None` holds exactly when the pattern matches nowhere. |
| Patterns.XTripleEndMatches | src/utils/package.utils.js:152 | The x-range scanner finds a match at `p` exactly when `(\d+\.x\.\d+\|\d+\.x\.x\|\d+\.\d+\.x)` matches at `p`, in all three alternatives. |
| VersionParsing.CaretXMiddleZeroed | src/utils/package.utils.js:152-173 | "^1.x.3" takes the `A.x.C` alternative and parses to "1.0.3" with qualifier "^". |
| VersionParsing.XMatchParts | src/utils/package.utils.js:152 | The x-range match is three "."-free components joined by ".". The first is digits. The others are `x` or digits, and at least one of them is `x`. |
| VersionParsing.XMatchGreedy | src/utils/package.utils.js:152 | A digit third component is the whole run of digits: the match never stops before a digit. |
| VersionParsing.XSlotsZeroed | src/utils/package.utils.js:152-156 | The x-range match splits into its three components. Removing the x's keeps the digit components and turns each `x` into "0". Text outside the match is dropped. |
| VersionParsing.RemoveXVersionNumber | src/utils/package.utils.js:179-192 | The in-place array edit (`arr[1]`, then the first character of `arr[2]`) followed by `join` gives the x-zeroed string that XSlotsZeroed characterises. |
| VersionParsing.ParsedVersionHasTriple | src/utils/package.utils.js:144-177 | A parsed version contains a `\d+.\d+.\d+` triple exactly when the input is not "latest"/"*". This covers the x-range route, the padded route and the plain route. |
| VersionParsing.ParsedIsRoutable | src/utils/package.utils.js:133-149 | Every result of `parseVersion` can be given to `hitVersionEndpoint`. An `undefined` qualifier only comes with a triple-free "latest"/"*", so the short-circuit never reads `.match` of `undefined`. |
| VersionParsing.HitVersionEndpointMatches | src/utils/package.utils.js:133-136 | `hitVersionEndpoint` holds exactly when the loose `\d+.\d+.\d+` matches somewhere in the version and the qualifier is `null` or contains "=". |
| VersionParsing.ExactRouteIff | src/utils/package.utils.js:133-136 | A parsed constraint takes the exact-version route exactly when it is not "latest"/"*" and its qualifier is `null`, ">=" or "<=". |
| VersionParsing.QualifierHasEquals | src/utils/package.utils.js:168-173 | A matched qualifier contains "=" exactly when it is ">=" or "<=". |
| VersionParsing.DotlessInputPadded | src/utils/package.utils.js:158-165 | An input with no "." and no x-range, made of a prefix without digits followed by digits `d`, parses to version `d + ".0.0"`. |
| VersionParsing.CaretMajorOnlyIsPadded | src/utils/package.utils.js:158-173 | "^1" parses to version "1.0.0" with qualifier "^". |
| VersionParsing.TwoComponentsThrow | src/utils/package.utils.js:158-165 | "^1.2" contains a "." and so is not padded. It holds no triple, so the match is `null` and parsing fails. |
| VersionParsing.TildeXRangeZeroed | src/utils/package.utils.js:152-173 | "~1.2.x" parses to "1.2.0" with qualifier "~". |
| VersionParsing.GreaterOrEqualTakesExactRoute | src/utils/package.utils.js:133-177 | ">= 0.3.0" parses to "0.3.0" with qualifier ">=", and takes the exact-version route. |
| VersionParsing.PlainVersionTakesExactRoute | src/utils/package.utils.js:133-177 | "1.0.0" parses to itself with a `null` qualifier and takes the exact-version route. |
| Patterns.FindLooseTriple | src/utils/package.utils.js:134 | Returns the leftmost start of `\d+.\d+.\d+`, where each unescaped dot matches one Unicode character that is not a line terminator. No match exists before it. `None` means no match exists anywhere. |
| Patterns.LineEnd | src/utils/package.utils.js:165 | The greedy `(.+)?` after the triple extends to the first line terminator or to the end of the input. |
| Text.SplitJoin | src/utils/package.utils.js:181-191 | `split(".")` undoes `join(".")` on parts that hold no ".". |
| Text.JoinSplit | src/utils/package.utils.js:181-191 | `split(".")` followed by `join(".")` gives the string back. |
| Text.NatToString | src/utils/package.utils.js:52 | The template literal prints a digit string whose numeric value is the number, with no leading zero. |
| VersionSelection.ParseVersionNumber | src/utils/package.utils.js:22-35 | `parseVersionNumber` succeeds exactly when there are at least three "."-separated components and the third starts with a digit. Major and minor are `Number()` of the first two components. |
| VersionSelection.ParseVersionNumberPatch | src/utils/package.utils.js:22-32 | When the third "."-separated component is a digit run `d` followed by text that does not start with a digit, the version parses and its patch is the value of `d`. Its appendix is `undefined` exactly when `\d+\.\d+\.\d+` matches nowhere in the version. |
| VersionSelection.AppendixUndefined | src/utils/package.utils.js:32 | The appendix is `undefined` exactly when `\d+\.\d+\.\d+` (`Patterns.StrictGroupsAt`) matches nowhere in the key. |
| Patterns.StrictTripleEndMatches | src/utils/package.utils.js:32 | The strict scanner finds a match at `p` exactly when `\d+\.\d+\.\d+` matches at `p`. Its match takes the whole last digit run. |
| VersionSelection.AppendixOfOnlyMatch | src/utils/package.utils.js:32 | When the only match of `\d+\.\d+\.\d+` starts at `q` and ends at `e`, the appendix is the text from `e` to the end. This covers pre-release keys such as "1.2.3-beta". |
| VersionSelection.AppendixOfTwoMatches | src/utils/package.utils.js:32 | With a first match at `q1` ending at `e1` and the next match starting at `q2`, the appendix is the text between them, `split(...)[1]`. |
| VersionSelection.AppendixBeforeSecondTriple | src/utils/package.utils.js:32 | The appendix of "1.2.3-rc.4.5.6" is "-rc.", which stops where the second triple starts. |
| VersionSelection.NumberPrintsBack | src/utils/package.utils.js:34 | `Number()` of a numeral without leading zeros, printed by the template literal, gives the numeral back. |
| Text.NumeralRoundTrip | src/utils/package.utils.js:52 | Printing the value of a numeral without leading zeros gives the numeral back. |
| VersionSelection.KeyRoundTrip | src/utils/package.utils.js:22-53 | A key "M.m.p" followed by text with no digit and no "." parses to its three numbers, with that text as the appendix. The selectors' key template rebuilds exactly that key. This covers pre-release keys such as "1.2.3-beta". |
| VersionSelection.KeyAppendix | src/utils/package.utils.js:32 | After a leading three-numeral triple, text with no digit is the whole appendix. |
| VersionSelection.Lookup | src/utils/package.utils.js:53 | `versions[key]` is `undefined` exactly when no entry has that key. Otherwise the result is an entry stored under that key. |
| VersionSelection.GetLastVersion | src/utils/package.utils.js:125-131 | An empty catalog gives `undefined`. Otherwise the result is the entry of the last key. |
| VersionSelection.ScanFailurePersists | src/utils/package.utils.js:42-43 | A key that throws inside the `forEach` aborts the whole selection with that error. |
| VersionSelection.CaretStep | src/utils/package.utils.js:45-48 | The running best is replaced exactly when the key has the same major and a strictly larger minor or a strictly larger patch. A replacement keeps the major and takes the key's minor, patch and appendix. |
| VersionSelection.TildeStep | src/utils/package.utils.js:63-66 | A replacement needs the same major and minor and a strictly larger patch. It keeps major and minor. |
| VersionSelection.VersionMinorAndPatch | src/utils/package.utils.js:37-54 | The loop with running `minor`/`patch`/`appendix` returns the caret scan's result looked up under the rebuilt key. A key that throws aborts it. |
| VersionSelection.VersionPatch | src/utils/package.utils.js:56-71 | The loop with running `patch`/`appendix` returns the tilde scan's result looked up under the rebuilt key. |
| VersionSelection.CaretOrigin | src/utils/package.utils.js:37-54 | The caret result never changes the major. It is either the constraint itself, or the minor, patch and appendix of one same-major key. |
| VersionSelection.CaretSettled | src/utils/package.utils.js:37-54 | The caret result is the constraint, or the minor, patch and appendix of the last key that moved the running best. That key has the constraint's major. Every later key parses and leaves the result unchanged, so none has that major together with a larger minor or a larger patch. |
| VersionSelection.CaretSelectsMovingKey | src/utils/package.utils.js:37-54 | Over a single key that prints back as itself, the caret selector returns that key's entry whenever the key moves the constraint. |
| VersionSelection.CaretCanSelectLowerMinor | src/utils/package.utils.js:45-48 | `^1.5.0` over the single key 1.4.9 selects 1.4.9, because the test is not lexicographic. |
| VersionSelection.TildeKeepsLine | src/utils/package.utils.js:56-71 | The tilde result keeps major and minor and never lowers the patch. An unraised patch leaves the constraint unchanged. |
| VersionSelection.TildeBound | src/utils/package.utils.js:56-71 | Every key parses. The final patch is at least the patch of every key with the constraint's major and minor. |
| VersionSelection.TildeFirstReach | src/utils/package.utils.js:56-71 | A raised patch, together with its appendix, comes from the first same-line key that reaches it. Every earlier same-line key has a smaller patch. |
| VersionSelection.VersionLargerThan | src/utils/package.utils.js:73-97 | As written: a ReferenceError on any non-empty catalog. On an empty catalog, the lookup of the constraint's own key. |
| VersionSelection.VersionLessThan | src/utils/package.utils.js:99-123 | As written: a ReferenceError on any non-empty catalog. On an empty catalog, the lookup of the constraint's own key. |
| VersionSelection.AngleOnEmptyCatalog | src/utils/package.utils.js:73-97 | On an empty catalog the as-written `>`/`<` selection is `undefined`. |
| VersionSelection.GreaterThanThrows | src/utils/package.utils.js:73-97 | `>1.0.0` over the key 2.0.0 throws as written. The intended selector picks 2.0.0. |
| VersionSelection.AngleIntendedSelectsBeyondKey | src/utils/package.utils.js:77-93 | Over a single key beyond the constraint that prints back as itself, the intended `>`/`<` selector returns that key's entry. |
| VersionSelection.VersionLargerThanIntended | src/utils/package.utils.js:77-93 | The indexed loop with `break` returns the first key in catalog order that is strictly greater on (major, minor, patch), or the constraint itself. |
| VersionSelection.VersionLessThanIntended | src/utils/package.utils.js:103-119 | The indexed loop with `break` returns the first key in catalog order that is strictly less, or the constraint itself. |
| VersionSelection.FirstBeyondIsFirst | src/utils/package.utils.js:77-93 | The intended result is either the constraint, with no key beyond it, or a key beyond it with every earlier key parsed and not beyond. |
| VersionSelection.Selection | src/utils/package.utils.js:1-20 | Whatever `chooseVersion` selects is an entry of the catalog. |
| VersionSelection.ChooseVersion | src/utils/package.utils.js:1-20 | The dispatch on "latest"/"*" and then on the qualifier gives the selection of the chosen selector. |
| VersionSelection.SelectionCases | src/utils/package.utils.js:1-20 | "latest"/"*" give the last entry, or `undefined` for an empty catalog. A qualifier other than `^ ~ > <` falls through the switch and gives `undefined`. |
| Package.Resolution | src/package.js:12-23 | A node stays `{}` exactly when no depth is left. Otherwise a constraint that `parseVersion` rejects reports that error for the node. A filled node carries the requested name. |
| Package.Route | src/package.js:15-22 | A node stays `{}` exactly when no depth is left. With depth left, a parse error is reported for the node. A filled node carries the requested name. |
| Package.Endpoint | src/package.js:15-22 | Either route, once taken, fills the node or reports an error. It never leaves the node `{}`. A filled node carries the requested name. |
| Package.VersionEndpoint | src/package.js:25-42 | The exact route reports a fetch failure exactly when the registry has no such version. Otherwise it fills the node with the name and the parsed version string. |
| Package.GenericEndpoint | src/package.js:44-65 | The catalog route reports a fetch failure when the registry has no catalog, and it never leaves the node `{}`. A filled node has the requested name and the `version` field of an entry of that package's catalog. |
| Package.Record | src/package.js:31-38 | A filled node has the given name and version. Its `dependencies` is `null` exactly when the metadata has none. Otherwise it keeps the same keys in the same order. |
| Package.Node.constructor | src/package.js:73 | A fresh `{}`: valid, owning only itself, with the value of an empty object. |
| Package.Node.Fail | src/package.js:39-41 | `next(error)` reports the error for this node, which stays unfilled. |
| Package.AssignProperties | src/utils/package.utils.js:138-142 | `name`, `version` and `dependencies` are set together. Each dependency value is still its constraint string. |
| Package.GetPackageEndpoint | src/package.js:12-23 | Fills the empty `result` with exactly the tree `Resolution` describes. Every object it allocates is fresh. |
| Package.TakeRoute | src/package.js:15-22 | The exact route runs iff `hitVersionEndpoint` holds for the parsed pair. Otherwise the catalog route runs. |
| Package.GetVersionEndpoint | src/package.js:25-42 | A failed fetch reports to `next`. Otherwise the node records the parsed version string itself and its dependencies are resolved. |
| Package.GetGenericEndpoint | src/package.js:44-65 | A failed fetch, a throwing selector or an `undefined` selection reports to `next`. Otherwise the node records the selected entry's `version`. |
| Package.GetDependencies | src/package.js:67-87 | Keys and key order are unchanged. Each value, previously its constraint string, becomes a fresh node resolved from exactly that string. |
| Package.ResolveSlot | src/package.js:72-83 | One slot receives a fresh object resolved from the constraint it held. Every other slot, and every node already resolved, is untouched. |
| Package.RouteProvenance | src/package.js:12-65 | The exact route records the parsed version string and that version's metadata. The catalog route records the `version` of some catalog entry. `dependencies` is `null` exactly when the metadata has none. |
| Package.CompleteIsStable | src/package.js:12-87 | Once every node of a resolution is reached, more depth gives the same tree. |
| Package.ExpressTree | test/package.test.js:39-61 | express 1.0.0, which depends on connect ">= 0.3.0", resolves to `{express, 1.0.0, {connect: {connect, 0.3.0, null}}}`. The tree is complete. |
| Package.ConnectIsLeaf | test/package.test.js:54-58 | connect ">= 0.3.0" is fetched exactly and records "0.3.0" with `null` dependencies. |

## Left out

- The HTTP requests made through `got`, and the registry URLs (src/package.js:27-29, 46-48). They are replaced by the two registry lookups passed as a parameter.
- The Express handler `getPackage`, `res.status(200).json`, and all of src/app.js. These are web-framework wiring. `next(error)` is modelled as a per-node `Failed` value, whose JSON is `{}`.
- `Promise.all` concurrency. The children are resolved one after another, in key order. Each child writes only into its own fresh object, so the finished tree is the same.
- An early `Promise.all` rejection is not modelled. When a child's constraint makes `parseVersion` throw, the source rejects that child's promise. The parent's `catch` then passes the error to `next`, while the parent stays filled. The model records that error on the child.
- A constraint at the root that makes `parseVersion` throw is an unhandled rejection in the source. The model reports it as the root's `Failed` value.
- Cycle handling: the code has none. Depth is bounded by `fuel`, and a node reached with no fuel left stays `{}`.
- src/deprecated/package-promiseAll.js and src/deprecated/package-sequential.js are superseded scripts, and are not part of this model. test/package.test.js is used only for the express worked example.
- `Number()` corner cases: signs, whitespace, hexadecimal, exponent notation. The model takes a component of digits to its numeral value, anything else to NaN, and an empty component to 0.
- VersionSelection.JsNumber: models `Number()` of a digit string as an exact natural, while JavaScript gives a double. Digit strings above 2^53 round (`Number("9007199254740993")` is 9007199254740992). Values of 1e21 or more print as "1e+21" in the key template. Very long digit strings become `Infinity`. For such components the model rebuilds a different key from the one the source looks up.
- Lookups that reach properties inherited from `Object.prototype`, and the ordering `Object.keys` gives integer-like keys. The catalog is a sequence taken in key order.
- A registry answer without a `versions` field. The catalog lookup returns the catalog directly.
- Package.Record and Package.GetDependencies: these treat the dependencies object by position. They assume distinct keys, as a JSON object has.
- VersionSelection.GetLastVersion: names the last entry only when keys are distinct, as they are in any JavaScript object.
- VersionSelection.SelectionCases: requires distinct keys, which every JavaScript object has but a sequence need not.
- Package.RouteProvenance: on the catalog route, states only that the recorded version comes from some catalog entry. Which entry is chosen is stated by the selector lemmas instead.
- Package.CompleteIsStable: states stability under one more level of fuel, not under any larger bound.
- Patterns.FindLooseTriple: strings are sequences of Unicode characters, where JavaScript regular expressions without the `u` flag see UTF-16 code units. A character outside the Basic Multilingual Plane (an emoji, say) is one `.` here and two code units there. So "1😀2.3" holds the loose triple in the model but not in the source. The same gap carries over to `VersionParsing.ParseVersion`, which parses "1😀2.3" where the source throws on `null[0]`, and to `VersionParsing.HitVersionEndpoint`, which is true for it where the source's test is false.
- VersionParsing.HitVersionEndpoint: called with an `undefined` qualifier and a version that matches the loose triple, the source throws on `.match`. No result of `parseVersion` does this, as ParsedIsRoutable proves, so the model requires it away.
