# File-system source of the Truffle resolver, in Dafny

The resolver turns the `import` statements of Solidity files into file contents, and
turns contract source paths into compiled artifacts. It asks a list of sources in turn.
This project models one of them, class `FS` of `packages/resolver/lib/sources/fs.ts`.
That source works on the local disk:

- `resolve(importPath, importedFrom)` reads an import. It serves the logging helper
  `truffle/Console.sol` from the copy bundled with the toolchain. Any other import is
  tried first as written, then relative to the directory of the importing file, and the
  first candidate that reads wins. When neither reads, both fields of the answer are
  empty.
- `getContractName(sourcePath, searchPath)` lists the build directory and keeps the
  entries the pattern `.json` matches. It parses them in listing order and answers with
  the `contractName` of the first artifact whose `sourcePath` is the one asked for. When
  none is, it answers with the file's base name without `.sol`. A listing, read or parse
  failure met on the way escapes to the caller.
- `require(importPath, searchPath)` normalises the path and looks up its contract name.
  It refuses an absolute path whose text does not start with the working directory. It
  then reads and parses `<searchPath>/<contractName>.json`, and any failure at that step
  gives `null`.
- `resolveDependencyPath(importPath, dependencyPath)` resolves a dependency against the
  directory of the importing file, with no disk access.

The disk, the JSON parser and the process working directory form one explicit value,
`Host.Env`, which every operation that touches them takes as a parameter. Thrown
exceptions become `Outcome.Threw`, and `null`/`undefined` become `Option.None`. The
Node path helpers are modelled in `PosixPath`: a `'/'`-segment model of `normalize`,
`join`, `dirname`, `basename`, `resolve` and `isAbsolute`. The JavaScript string
operations the source uses are in `Text`.

The methods of `FS` are proved against specification functions. `GetContractName` is
proved against `ContractName`/`ScanArtifacts`, and lemmas characterise the scan: the
first entry it stops at decides the answer. `Require` and `Resolve` state every branch
of the source as a postcondition. Two closed scenarios (`TokenScenarioInside`,
`TokenScenarioOutside`) call `Require` on a concrete build directory and prove its result.

Files: `text.dfy` (module `Text`), `posix_path.dfy` (module `PosixPath`), `host.dfy`
(module `Host`), `fs.dfy` (module `FsSource`, class `FS`).

## Model

| member | source | states |
|---|---|---|
| FsSource.FS.constructor | packages/resolver/lib/sources/fs.ts:10-13 | the working directory and build directory are the ones given (plus the location of the bundled logging helper) |
| FsSource.FS.Require | packages/resolver/lib/sources/fs.ts:15-35 | a failing contract-name lookup escapes unchanged, and it is the only thing that escapes; a normalised absolute path that does not start with the working directory's text gives `None`; `Some(a)` means the path is inside the sandbox and `<searchPath>/<name>.json` exists and parses to `a`; `None` inside the sandbox means that file is missing or unparsable |
| FsSource.FS.GetContractName | packages/resolver/lib/sources/fs.ts:37-58 | the loop over the filtered listing computes exactly `ContractName`: the failure of the first entry that does not read or parse, else the contract name of the first artifact recorded for `sourcePath`, else the base name without `.sol`; a directory that cannot be listed throws |
| FsSource.FS.Resolve | packages/resolver/lib/sources/fs.ts:60-103 | `truffle/Console.sol` is read from the bundled helper and reported under its import name, and only that read can throw; any other import returns the literal path's text if it reads, else the text of the path relative to the importer's directory if that reads, else neither body nor path |
| FsSource.FS.ResolveDependencyPath | packages/resolver/lib/sources/fs.ts:105-109 | the result is canonical: absolute, with no `.`, `..` or empty segment |
| FsSource.FS.SearchDir | packages/resolver/lib/sources/fs.ts:15 | the default parameter of `require` and `getContractName` (also line 39): the given search directory, else the build directory |
| FsSource.FS.OutsideSandbox | packages/resolver/lib/sources/fs.ts:20-21 | the test `isAbsolute(p) && p.indexOf(workingDirectory) !== 0` holds exactly for absolute paths whose text does not start with the working directory |
| FsSource.RelativeCandidate | packages/resolver/lib/sources/fs.ts:61-64 | the second candidate is absolute exactly when the importing file is; for an importer in a canonical directory other than the root, a plain name becomes that directory's entry |
| FsSource.DependencyPathSibling | packages/resolver/lib/sources/fs.ts:106-108 | a dependency `name` or `./name` of a file in a canonical directory other than the root is that directory's entry `name`, for every working directory |
| FsSource.DependencyPathIgnoresCwd | packages/resolver/lib/sources/fs.ts:105-109 | for an absolute importing file the dependency path is the same whatever the process working directory |
| FsSource.DependencyPathExample | packages/resolver/lib/sources/fs.ts:106-108 | `./Bar.sol` imported from `/a/b/Foo.sol` is `/a/b/Bar.sol`, whatever the process working directory |
| FsSource.JsonMatchFrom | packages/resolver/lib/sources/fs.ts:43 | `file.match(".json")` reduced to the match index: the first position at or after the start where any character but a line terminator is followed by `json`, or `None` when there is none |
| FsSource.MatchesJsonPattern | packages/resolver/lib/sources/fs.ts:43 | the filter condition `file.match(".json") != null`: some position holds a character other than a line terminator followed by `json` |
| FsSource.JsonMatchDecidesFilter | packages/resolver/lib/sources/fs.ts:43 | the filter keeps a name exactly when the regular-expression search finds a match |
| FsSource.JsonInsideMatches | packages/resolver/lib/sources/fs.ts:43 | any name containing a character other than a line terminator followed by `json`, anywhere, passes the filter |
| FsSource.JsonArtifacts | packages/resolver/lib/sources/fs.ts:42-44 | an entry is kept if and only if it is listed and the pattern `.json` matches it; the result is no longer than the listing |
| FsSource.JsonArtifactsKeepsOrder | packages/resolver/lib/sources/fs.ts:42-44 | the filter keeps listing order: filtering a concatenation is concatenating the filtered parts |
| FsSource.JsonSuffixMatches | packages/resolver/lib/sources/fs.ts:43 | every entry ending in `.json` passes the filter |
| FsSource.JsonPatternIsUnanchored | packages/resolver/lib/sources/fs.ts:43 | the filter is an unanchored regular-expression search: `Token.json.bak` and `notes_json.txt` pass it, and `json` does not |
| FsSource.ReadArtifact | packages/resolver/lib/sources/fs.ts:47-48 | an entry is read at `path.resolve(searchPath, entry)`; it yields an artifact exactly when that file exists and parses, and a failure names that file (read failure when it is missing, parse failure otherwise) |
| FsSource.ScanArtifacts | packages/resolver/lib/sources/fs.ts:46-54 | a contract name comes from an entry recorded for the source path, a failure from an entry that fails to read or parse, and no match only when every entry reads, parses and records another source path |
| FsSource.ContractName | packages/resolver/lib/sources/fs.ts:41-57 | an unlistable directory throws; any other failure comes from a filtered entry of the listing; a returned name is either the base name without `.sol` or the name a filtered entry records for the source path |
| FsSource.SingleArtifactContractName | packages/resolver/lib/sources/fs.ts:41-57 | with a filtered listing of one artifact, the name is that artifact's for its own source path and the fallback base name for any other |
| FsSource.ArtifactFile | packages/resolver/lib/sources/fs.ts:28 | the file `require` reads is absolute for an absolute search directory, and is the entry `<contractName>.json` of a canonical search directory other than the root |
| FsSource.ScanStopsAtFirst | packages/resolver/lib/sources/fs.ts:46-54 | when every entry before position `k` reads, parses and records another source, the scan's outcome is decided by entry `k` (its failure, or its contract name); when that holds for all entries, nothing matches |
| FsSource.ContractNameFirstMatch | packages/resolver/lib/sources/fs.ts:46-53 | the contract name is that of the first filtered artifact recorded for the source path, provided the artifacts before it read and parse |
| FsSource.ContractNameCorruptArtifact | packages/resolver/lib/sources/fs.ts:47-49 | a filtered artifact that fails to read or parse before any match makes the lookup throw that failure |
| FsSource.ContractNameFallback | packages/resolver/lib/sources/fs.ts:56-57 | when no filtered artifact is recorded for the source path, the name is the base name of the source path without `.sol` |
| FsSource.SandboxIsTextPrefix | packages/resolver/lib/sources/fs.ts:19-24 | with working directory `/proj` the sandbox admits `/proj2/x` and `/proj/contracts/Token.sol` and relative paths, and refuses `/other/Token.sol`: it is a text prefix test |
| FsSource.TokenScenarioInside | packages/resolver/lib/sources/fs.ts:15-35 | with one artifact `Token.json` recorded for `/proj/contracts/Token.sol`, `require` of that path returns that artifact |
| FsSource.TokenScenarioOutside | packages/resolver/lib/sources/fs.ts:19-24 | in the same build directory, `require("/other/Token.sol")` returns `None` although the lookup succeeds, because the path is outside the working directory |
| Text.IndexOfFrom | packages/resolver/lib/sources/fs.ts:21 | `indexOf` from a start within the string gives -1 or a position where the text occurs, and no earlier occurrence exists at or after the start |
| Text.IndexOf | packages/resolver/lib/sources/fs.ts:21 | `s.indexOf(t)` is the first position where `t` occurs, and -1 exactly when it occurs nowhere |
| Text.IndexOfZeroIsPrefix | packages/resolver/lib/sources/fs.ts:21 | `s.indexOf(t) === 0` holds exactly when `t` is a prefix of `s` |
| PosixPath.Split | packages/resolver/lib/sources/fs.ts:16 | splitting yields at least one segment, and no segment holds a separator |
| PosixPath.JoinSplit | packages/resolver/lib/sources/fs.ts:16 | joining the segments of a split gives the path back |
| PosixPath.Normalize | packages/resolver/lib/sources/fs.ts:16 | normalising keeps a path absolute exactly when it was absolute |
| PosixPath.NormalizeCanonical | packages/resolver/lib/sources/fs.ts:16 | normalising leaves a canonical path unchanged |
| PosixPath.Join | packages/resolver/lib/sources/fs.ts:28 | the joined path is absolute exactly when its first non-empty argument is |
| PosixPath.JoinCanonicalName | packages/resolver/lib/sources/fs.ts:28 | joining a canonical directory other than the root with a name is their plain `/`-concatenation, and stays canonical |
| PosixPath.JoinDotName | packages/resolver/lib/sources/fs.ts:108 | joining a canonical directory other than the root with `./name` drops the `.` segment |
| PosixPath.Dirname | packages/resolver/lib/sources/fs.ts:64 | the directory is never empty, is absolute exactly when the path is, and for a relative path is `.` or a prefix of it |
| PosixPath.Basename | packages/resolver/lib/sources/fs.ts:57 | a base name holds no separator |
| PosixPath.BasenameStripsExtension | packages/resolver/lib/sources/fs.ts:57 | the base name of `dir/name.sol` with extension `.sol` is `name` |
| PosixPath.Resolve | packages/resolver/lib/sources/fs.ts:48 | `path.resolve` always returns an absolute path |
| PosixPath.RawResolveAbsolute | packages/resolver/lib/sources/fs.ts:48 | the path `resolve` builds before normalising is absolute |
| PosixPath.ResolveCanonical | packages/resolver/lib/sources/fs.ts:108 | what `path.resolve` returns is canonical, whatever its arguments |
| PosixPath.ResolveIgnoresCwd | packages/resolver/lib/sources/fs.ts:108 | when the last argument is absolute, the process working directory plays no part |
| PosixPath.ResolveCanonicalFixpoint | packages/resolver/lib/sources/fs.ts:48 | `path.resolve` returns the path it builds unchanged when that path is already canonical, the root included |
| PosixPath.ResolveCanonicalPath | packages/resolver/lib/sources/fs.ts:108 | `path.resolve` of one canonical path is that path, whatever the working directory |
| PosixPath.ResolveCanonicalName | packages/resolver/lib/sources/fs.ts:48 | `path.resolve(dir, name)` for a canonical directory other than the root and a name is their plain `/`-concatenation |

## Left out

- Disk I/O is a map from path text to file text. A path that is not a key cannot be read, whatever the reason. Encodings, error kinds and two spellings of the same file are not modelled.
- A relative path read by `resolve` is looked up under its literal text. The process working directory plays no part in that lookup.
- `JSON.parse` is a parameter of the environment restricted to artifact records. A text that is valid JSON but not an artifact record counts as unparsable. In the source such a text either throws when its `sourcePath` is read (`null`) or simply does not match.
- An artifact whose `contractName` is missing is not modelled. In the source `require` would then read `undefined.json`.
- `FS.Require` returns the parsed artifact record, not the whole JSON document the source returns.
- `FS.Resolve`: the bundled helper's location is a constructor parameter. In the source it is computed from `__dirname`, the `BUNDLE_VERSION` global and the helper's base name, which depend on how the toolchain was packaged.
- `FS.Resolve`: `importedFrom || ""` is modelled for `null`/`undefined` (`None`) only. An empty string has the same effect, and other falsy values cannot arise for a string argument.
- `FS.Resolve` is `async` in the source. The model computes the settled value; promise scheduling is not modelled.
- The `ResolverSource` interface and the resolver that asks the sources in turn are not part of this model.
- `PosixPath` models the POSIX behaviour of Node's path helpers over `'/'` segments. Windows separators and drive letters are not modelled, and equivalence with Node on every input is not claimed.
