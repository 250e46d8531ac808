# credit-roll: the Libraries section as a verified model

`credit-roll` prints a markdown credits document for a Node.js project. Its
one piece of real logic is the Libraries section of `index.js`. It walks
`node_modules`, parses every `package.json`, and keeps one record per
package name: the highest version seen, and the first one seen on ties.
It then goes through the kept packages in sorted name order. For each
package it works out a license name and looks for a license file, and it
prints either a collapsible `<details>` block with the indented license
text, or just the license name. A package with neither a name nor a text
is skipped.

This project models that section as pure functions over data that has
already been read:

- each manifest file is a `ManifestFile`: its path, plus the outcome of
  `JSON.parse` (`Parsed(manifest)` or `Malformed`);
- license texts are a map from a manifest's path to the text of the first
  license-like file under its directory;
- the version comparison `semver.lt` is a parameter `lt`.

Modules:

- `Wrappers`: `Option`.
- `JsValues`: JavaScript truthiness of string fields and the `||` fallback.
- `Semver`: the order laws the deduplication needs (strict partial order,
  strict weak order), plus a major.minor.patch stand-in that satisfies them.
- `Manifests`: manifests, manifest files and stored records.
- `Dedup`: the loop at index.js:60-75 as a left fold (`Step`, `Fold`), and
  what it keeps.
- `LicenseNames`: the license-name expression at index.js:79-81. Its
  partner `SplitNames` recovers the joined types.
- `Indentation`: `replace(/^/gm, '    ')`. Its partner `Lines` splits text
  the way the multiline `^` sees it.
- `Rendering`: the print-or-skip decision at index.js:91-106.
- `LexOrder`: `Object.keys(pkgs).sort()`.
- `Libraries`: the section put together.
- `Scenarios`: worked instances.

Two details of the code shape the model:

- **Which versions are skipped.** The loop skips any falsy `version`
  (index.js:70), so `"version": ""` is skipped as well as a missing one.
- **The version order.** `semver.lt` ignores build metadata, so two
  different version strings can have equal precedence. On version strings
  it is therefore a strict weak order, not a total one. The "first maximal
  wins" result is proved for any strict weak order.

## Model

| member | source | states |
|---|---|---|
| Dedup.Step | index.js:64-74 | A malformed manifest, or one whose version is falsy, leaves the map unchanged. Any other manifest changes at most the entry under its own name. It installs itself when the name is new or the stored version is strictly lower, and leaves the map unchanged otherwise. |
| Dedup.FoldKeys | index.js:60-75 | After the loop, a name is a key exactly when some manifest that parsed and has a truthy version declares it. The value stored under a name is the record (manifest plus path) of one such manifest. |
| Dedup.FoldKeepsMaximal | index.js:70-74 | If `lt` is a strict partial order, no usable manifest for a name has a version strictly above the kept record's version. |
| Dedup.FoldKeepsFirstMaximal | index.js:61-75 | If `lt` is a strict weak order, the kept record comes from the first usable manifest, in walk order, whose version is maximal for its name. Every earlier usable manifest for that name is strictly exceeded by some other one. |
| Dedup.FoldKeepsFirstOnTie | index.js:72-73 | If `lt` is a strict weak order, no usable manifest for the name that comes before the kept one has the same version string. Equal versions keep the first record. |
| Semver.CoreLtIsStrictTotalOrder | index.js:72 | The major.minor.patch stand-in comparison is irreflexive, transitive, asymmetric and total on distinct versions. |
| Semver.StandInIsStrictWeakOrder | index.js:72 | The stand-in comparison on version strings, with unparseable strings ordered lowest, satisfies the strict-weak-order laws that the deduplication results assume. |
| LicenseNames.LicenseName | index.js:79-81 | The license name is `license` when that is truthy. Otherwise it is present whenever a `licenses` array is, and absent when neither is. |
| LicenseNames.LicenseNameListsTypes | index.js:79-81 | Take a falsy `license` and a non-empty `licenses` array whose types contain no comma. Splitting the license name at ", " gives back exactly the entries' types, in order. A missing type counts as "". |
| LicenseNames.SplitJoin | index.js:81 | Joining comma-free strings with ", " is undone by splitting at ", ". The join loses no type and reorders none. |
| LicenseNames.LicenseNameTruthy | index.js:79-81 | The license name is truthy exactly when `license` is truthy, or when a `licenses` array is present and its joined types are non-empty. |
| LicenseNames.MissingTypeJoinsEmpty | index.js:81 | `licenses: [{}]` with no `license` gives the empty (falsy) name "". |
| Indentation.IndentLines | index.js:100 | Indenting keeps the number of lines. Line i of the result is four spaces followed by line i of the input. This includes the empty last line after a trailing terminator, and lines ended by CR, LF, U+2028 or U+2029. |
| Indentation.ConcatLines | index.js:100 | Splitting a text into the lines that the multiline `^` sees loses nothing: concatenating them gives the text back. |
| Indentation.LastLineAfterTerminator | index.js:100 | A text whose last character is a line terminator has at least two lines, and its last line is empty. |
| Indentation.TrailingTerminatorIndented | index.js:100 | Every text ending in a line terminator, once indented, has a final line of just four spaces. |
| Indentation.TrailingNewlineIndented | index.js:100 | The instance `"MIT\n"` indents to `"    MIT\n    "`. |
| Rendering.Render | index.js:91-106 | A package is skipped exactly when both its license name and its license text are falsy. It gets a details block exactly when its text is truthy. Otherwise, with a truthy name, it gets the plain name. |
| Rendering.DetailsContents | index.js:95-101 | The details block's body is the indented license text. Its summary is the license name, or "UNKNOWN LICENSE" when the name is falsy. The "UNKNOWN LICENSE TEXT" fallback is never used. |
| Rendering.PlainIsLicenseName | index.js:104-106 | A plain line always prints the real, truthy license name. The "UNKNOWN LICENSE" fallback in that branch is never reached. |
| LexOrder.LexLessIrreflexive | index.js:77 | No key sorts before itself. |
| LexOrder.LexLessTransitive | index.js:77 | The string order used by the key sort is transitive. |
| LexOrder.LexLessTotal | index.js:77 | Of two distinct keys, one sorts before the other. |
| LexOrder.Insert | index.js:77 | Inserting a new key into a strictly ascending sequence gives a strictly ascending sequence. It holds exactly the old keys plus the new one. |
| LexOrder.SortedKeys | index.js:77 | The keys of the package map come out in strictly ascending order. Each key appears exactly once, and nothing else appears. |
| Libraries.EmitInOrder | index.js:77-107 | Visiting keys in strictly ascending order gives sections whose names are strictly ascending. Exactly the keys whose block is not skipped appear, each with its own block. |
| Libraries.LibrarySections | index.js:77-108 | Printed package names are strictly ascending, so none repeats. A name is printed exactly when it is a kept package whose block is not skipped. Each printed block is the rendering of that package's license name and license text. |
| Scenarios.HigherNestedVersionWins | index.js:60-75 | Take `foo@1.0.0`, a malformed manifest, an unversioned manifest, and a nested `foo@2.0.0`. The only record kept is the nested 2.0.0 one. |
| Scenarios.LicenseWithText | index.js:95-101 | `license: "MIT"` with a license file gives a block titled MIT holding the indented text. |
| Scenarios.NoLicenseOmitted | index.js:91 | No `license`, no `licenses` and no license file: the package is not printed. |

## Left out

- Directory walks (`readdirp`, index.js:57-59 and 83-85) and file reads are I/O. Manifests arrive as a sequence in walk order. The license text arrives as a map keyed by manifest path, because the first match depends on traversal order. That search also descends into a package's own nested `node_modules`, so the text can come from a dependency's license file. That ambiguity is carried by the given map and not modelled.
- `JSON.parse` is modelled by its outcome only (`Parsed` or `Malformed`).
- `semver.lt` is an external library and stays a parameter. `semver.lt` throws on an invalid version string, and the error aborts the run (index.js:112-115). The model does not throw.
- Semver.StandInIsStrictWeakOrder: the stand-in orders only plain major.minor.patch strings. A version with a pre-release or build suffix does not parse; like every unparseable string it is ordered below all plain major.minor.patch versions, where `semver.lt` would rank it by the suffix rules or throw. It does not reproduce the library.
- The contributors section (index.js:11-39) parses `.all-contributorsrc` and is dropped on any read or parse error. The curated sections (index.js:41-52) `require` each argument and title-case its base name through the external `titleCase` and `basename` calls. Both are plain printing.
- Exact output bytes are out of scope: the heading link `### [name](https://ghub.io/name)`, blank lines, `<details>` markup, `console.log`, the async sequencing and the exit status. A `Section` carries the package name and its `Block`.
- Plain-object quirks are out of scope: prototype keys such as `constructor`, a missing `name` that becomes the key `"undefined"`, and non-string `version`, `license` or `type` values. A truthy `licenses` value that is not an array, such as a string or an object, is also left out; with a falsy `license`, calling `.map` on it throws and aborts the run. A `null` or other falsy `licenses` skips the call and behaves like `None`.
- A `package.json` whose content is `null` parses without error, and `pkg.version` at index.js:70 then throws a TypeError that ends the run (index.js:112-115). `ParseOutcome` has no case for it: the fold models manifests that parse to an object, and it never aborts.
- A `licenses` array with a `null` or `undefined` element, such as `[null]`, makes the destructuring callback `({ type }) => type` at index.js:81 throw, which also ends the run. `LicenseEntry` models only object elements: an entry without `type` gives `""`, and no error is modelled.
- LexOrder.LexLess: compares characters by Unicode code point. JavaScript's default sort compares UTF-16 code units. The two differ only when comparing characters above U+FFFF with characters in U+E000-U+FFFF, and npm package names are ASCII.
