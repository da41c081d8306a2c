# Service-worker manifest generator, modelled in Dafny

The Angular service worker ships a build-time **Generator**. It takes three inputs:

- a declarative caching configuration: asset groups, data groups, navigation URLs, an index page and opaque application data;
- a snapshot of the built file tree;
- a base path such as `/test`.

From these it produces the manifest that the runtime worker reads. The Generator's implementation (`packages/service-worker/config/src/generator.ts`) is not part of this model. Its observable behaviour is pinned down by the two expectations of `packages/service-worker/config/test/generator_spec.ts`, and this project is a pure, functional model of that behaviour.

The model has these parts:

- `Glob`: the glob-to-regex compiler.
  - Globs are split on `/`. Within a segment, `*` becomes `[^\/]*`, and `.`, `?`, `+` and `/` are backslash-escaped.
  - A final `**` segment becomes `.*`. A `**` segment followed by more segments becomes `(?:.+\/)?`.
  - The compiler produces a token list. `Render` turns tokens into regex source, unanchored or `^…$`-anchored. `Matches` gives tokens their matching meaning, which the file matcher uses.
  - `Decompile` and `Unrender` are its inverses.
- `Urls`: the two resolvers.
  - URL patterns keep a leading `/` or a scheme (`http://…`) and prefix anything else with the base.
  - File paths and the index page are always prefixed with the base.
- `Duration`: `<digits><unit>` with unit `d`, `h`, `m`, `s` or `ms`, parsed to milliseconds. An unparseable string is an `InvalidDuration` error.
- `Files`: the file tree as an ordered list of `(path, content)` entries, and glob lists with `!` exclusions. A glob list is read left to right: the last glob that hits a path decides whether it is selected. Selection keeps the listing order.
- `Generator`: the manifest assembler.
  - Asset groups take their files from `files` first, then `versionedFiles`, and never a file an earlier group claimed.
  - URL patterns and data groups are compiled as described above.
  - Navigation rules are anchored, and a leading `!` means negative.
  - The hash table maps each claimed file's URL to the digest of its content.
  - Defaults:
    - install and update modes default to `prefetch`;
    - strategy defaults to `performance`;
    - the group version is 1 and `configVersion` is 1;
    - a missing `navigationUrls` gives four default rules.
- `GeneratorVectors`, `ConfigVectors`, `ListingVectors`, `ManifestVectors`: the test's input/output vectors, proved against the model. They cover:
  - each glob's regex;
  - each file's selection verdict;
  - the asset group, the data group and the hash table;
  - the whole manifest of both test cases, field by field for the first.
- `Strings`, `Segments`, `Wrappers`: splitting and joining on a separator, segment-wise regex assembly, and `Option`/`Result`.

## Where the tests and the written description differ

The model follows the tests in each case.

- The description says `:` is escaped like other metacharacters. The expected regex `^http:\/\/example\.com\/included$` leaves it alone. The tests exercise only `/`, `.`, `?`, `+` and `:`, and are silent on the other metacharacters; the model escapes the first four and leaves every other character that is not a wildcard, `:` included, unescaped.
- The description says `**` always becomes `.*`. The default navigation rules use `(?:.+\/)?` for a `**` that is followed by more segments, so the compiler distinguishes the two positions.
- The description says a path with a leading `/` is used as-is. That holds for URL patterns. File paths and the index page are base-prefixed even with a leading `/`, so there are two resolvers.
- The description resolves each file glob against the base before matching it. The model matches file globs as written against the listed paths, whose leading `/` is kept. The two agree on the tests, whose file globs all start with `/`. They differ on a relative file glob: with the listing `/foo/x.html` and the glob `foo/*.html`, the description selects the file and the model selects nothing. The tests are silent on this case.
- The description treats `!` entries of a file-glob list as a separate exclude set. The model reads the list in order, with the last hit deciding. `Files.IncludeThenExclude` proves that the two readings agree whenever the exclusions come after the inclusions, as in the test.

## Model

| member | source | states |
|---|---|---|
| Glob.RegexBySegments | packages/service-worker/config/test/generator_spec.ts:130-135 | a glob's unanchored regex is assembled segment by segment: a final `**` gives `.*`, an inner `**` gives `(?:.+\/)?`, and any other segment gives its own regex followed by `\/` |
| Glob.DecompileCompile | packages/service-worker/config/test/generator_spec.ts:37-41 | compiling a glob to tokens loses nothing: decompiling gives back the glob |
| Glob.GlobFromRegex | packages/service-worker/config/test/generator_spec.ts:81-85 | for a glob without backslashes, the emitted regex source can be read back into exactly that glob |
| Glob.LiteralGlobMatchesItself | packages/service-worker/config/test/generator_spec.ts:59 | a glob without `*` matches exactly the one path equal to it |
| Glob.RegexAround | packages/service-worker/config/test/generator_spec.ts:84 | when the left part does not end in `**`, joining two globs with `/` joins their regexes with `\/` |
| Glob.CompileJoin | packages/service-worker/config/test/generator_spec.ts:37-41 | a glob is compiled segment by segment between its separators |
| Urls.ResolveUrl | packages/service-worker/config/test/generator_spec.ts:37-41 | a URL with a scheme or a leading slash is kept; any other URL is put under the base |
| Urls.ResolveFile | packages/service-worker/config/test/generator_spec.ts:76-78 | a file path always goes under the base, whatever its leading slash, joined by one `/` |
| Urls.ResolveUrlIdempotent | packages/service-worker/config/test/generator_spec.ts:37-41 | a resolved URL is rooted or has a scheme, and resolving it again changes nothing |
| Urls.RelativePatternUnderBase | packages/service-worker/config/test/generator_spec.ts:84 | the regex of a relative URL is the base's regex, `\/`, then the URL's regex |
| Duration.UnitOf | packages/service-worker/config/test/generator_spec.ts:52-53 | a unit symbol is recognised exactly when it is the symbol of some unit, and names that unit |
| Duration.ParseDurationSpec | packages/service-worker/config/test/generator_spec.ts:92-93 | a string parses to `v` exactly when it is a non-empty run of digits followed by a unit symbol and `v` is that number times the unit's milliseconds |
| Duration.ParseDurationSound | packages/service-worker/config/test/generator_spec.ts:52-53 | a string that parses splits into digits and a unit, and the value is their product |
| Duration.ParseDurationComplete | packages/service-worker/config/test/generator_spec.ts:52-53 | every digits-and-unit string parses, to the number times the unit's milliseconds |
| Duration.ParseFormat | packages/service-worker/config/test/generator_spec.ts:92-93 | formatting a count with a unit and parsing the result gives the count in milliseconds |
| Files.Listing | packages/service-worker/config/test/generator_spec.ts:15-20 | the listing is the tree's paths, in the tree's order |
| Files.Read | packages/service-worker/config/test/generator_spec.ts:15-20 | reading fails exactly for a path not in the listing; otherwise it returns the content of an entry for that path |
| Files.ParseGlobRule | packages/service-worker/config/test/generator_spec.ts:31 | a leading `!` makes a rule negative and is not part of the compiled glob |
| Files.ParseGlobList | packages/service-worker/config/test/generator_spec.ts:30-36 | one rule per glob, in order |
| Files.IncludeThenExclude | packages/service-worker/config/test/generator_spec.ts:31 | when exclusions follow inclusions, a path is selected exactly when some inclusion hits it and no exclusion does |
| Files.SelectFiles | packages/service-worker/config/test/generator_spec.ts:76-80 | the selection is exactly the listed, matching, not yet claimed paths, in listing order, and without repeats when the listing has none |
| Generator.UrlPatterns | packages/service-worker/config/test/generator_spec.ts:37-41 | one unanchored pattern per URL, in order, each the regex of the resolved URL |
| Generator.CompileNavigationUrl | packages/service-worker/config/test/generator_spec.ts:56-63 | a rule is positive exactly when it has no leading `!`, and its regex is anchored |
| Generator.CompileNavigationUrls | packages/service-worker/config/test/generator_spec.ts:96-103 | one navigation entry per rule, in declaration order |
| Generator.NavigationRoundTrip | packages/service-worker/config/test/generator_spec.ts:56-63 | decoding a compiled navigation entry gives back the resolved rule with its `!` |
| Generator.FileUrls | packages/service-worker/config/test/generator_spec.ts:76-80 | one URL per claimed file, in order, each the file put under the base |
| Generator.Including | packages/service-worker/config/test/generator_spec.ts:76-80 | the claimed set grows by exactly the group's files |
| Generator.ProcessAssetGroup | packages/service-worker/config/test/generator_spec.ts:72-86 | the group keeps its configuration's name and compiles its URL patterns in order; its files are listed and not claimed before; its URLs are theirs under the base; absent modes become `prefetch` |
| Generator.AssetGroupOrder | packages/service-worker/config/test/generator_spec.ts:76-80 | the `files` matches come first and the `versionedFiles` matches after, each part in listing order |
| Generator.AssetGroupFiles | packages/service-worker/config/test/generator_spec.ts:30-36 | a file belongs to the group exactly when it is listed, unclaimed and selected by `files` or `versionedFiles` |
| Generator.AssetGroupDistinct | packages/service-worker/config/test/generator_spec.ts:76-80 | when the listing has no duplicates, no file appears twice in the group, even when both `files` and `versionedFiles` select it |
| Generator.AssetGroupsEach | packages/service-worker/config/test/generator_spec.ts:27-43 | the i-th group is compiled against exactly the files that the groups before it claimed |
| Generator.AssetGroupsFirstMatch | packages/service-worker/config/test/generator_spec.ts:27-43 | a file lands in group i exactly when it is listed, was not claimed before, and group i is the first group whose `files` or `versionedFiles` select it |
| Generator.FirstGroupSpec | packages/service-worker/config/test/generator_spec.ts:27-43 | the first selecting group is the one that selects the file while no group before it does |
| Generator.AssetGroupsClaims | packages/service-worker/config/test/generator_spec.ts:76-80 | every file a group holds is listed and was not claimed before the groups ran |
| Generator.AssetGroupsDisjoint | packages/service-worker/config/test/generator_spec.ts:104-108 | no file is held by two groups, so the table has one entry per file |
| Generator.AssetGroupsFields | packages/service-worker/config/test/generator_spec.ts:72-86 | each compiled group keeps its configuration's name, modes (or `prefetch`) and URL patterns, and lists the URLs of the files it holds |
| Generator.AssetGroupsUrlClaims | packages/service-worker/config/test/generator_spec.ts:76-80 | for rooted paths, a listed file's URL is in group i exactly when group i is the first group that selects the file, and no URL is in two groups |
| Generator.ClaimedFiles | packages/service-worker/config/test/generator_spec.ts:104-108 | a file is claimed exactly when some group holds it |
| Generator.HashTableShape | packages/service-worker/config/test/generator_spec.ts:104-108 | the table is built exactly when every claimed file is listed; its keys are exactly their URLs; otherwise the error names an unreadable claimed file |
| Generator.AssetPassDigests | packages/service-worker/config/test/generator_spec.ts:104-108 | every key of the table maps to the digest of its file's content |
| Generator.ResolveFileInjective | packages/service-worker/config/test/generator_spec.ts:104-108 | distinct rooted files get distinct URLs, so no digest is overwritten |
| Generator.GroupUrls | packages/service-worker/config/test/generator_spec.ts:76-80 | a URL is in the set exactly when some group lists it |
| Generator.AssetPassOk | packages/service-worker/config/test/generator_spec.ts:72-86 | the asset pass always succeeds, one group per configured group, and the table's keys are exactly the groups' URLs |
| Generator.ProcessDataGroup | packages/service-worker/config/test/generator_spec.ts:87-95 | a data group compiles exactly when both durations parse; then it keeps the name, compiles the URL patterns, copies `maxSize`, converts the durations, defaults the strategy to `performance` and sets version 1; otherwise the error names the first bad duration |
| Generator.ProcessDataGroups | packages/service-worker/config/test/generator_spec.ts:44-55 | the only error is a bad duration, and on success there is one compiled group per configured group |
| Generator.DataGroupsFirstError | packages/service-worker/config/test/generator_spec.ts:44-55 | a failure carries the error of the first data group that does not compile, and every group before it compiles |
| Generator.DataGroupsEach | packages/service-worker/config/test/generator_spec.ts:87-95 | all data groups compile exactly when each one does, and the i-th result is the i-th group's compilation |
| Generator.Process | packages/service-worker/config/test/generator_spec.ts:65-67 | the manifest is produced exactly when every data group compiles; the only error is a bad duration |
| Generator.ProcessManifest | packages/service-worker/config/test/generator_spec.ts:66-109 | schema version 1, application data passed through, index under the base; the asset groups are the configured groups compiled in order, each keeping its name, modes (or `prefetch`) and patterns; for rooted paths each listed file's URL is in exactly the first group that selects it and no URL is in two groups; the data groups compiled in order; navigation rules or defaults; a table keyed by the groups' URLs holding each file's digest |
| GeneratorVectors.RootGlob | packages/service-worker/config/test/generator_spec.ts:131 | `/**` compiles, anchored, to `^\/.*$` |
| GeneratorVectors.DottedGlob | packages/service-worker/config/test/generator_spec.ts:132 | `/**/*.*` compiles, anchored, to `^\/(?:.+\/)?[^\/]*\.[^\/]*$`: a non-final `**` is an optional run of directories |
| GeneratorVectors.DunderGlob | packages/service-worker/config/test/generator_spec.ts:133 | `/**/*__*` compiles, anchored, to `^\/(?:.+\/)?[^\/]*__[^\/]*$`; `_` is not escaped |
| GeneratorVectors.DunderDirGlob | packages/service-worker/config/test/generator_spec.ts:134 | `/**/*__*/**` compiles, anchored, to `^\/(?:.+\/)?[^\/]*__[^\/]*\/.*$` |
| GeneratorVectors.AbsoluteGlob | packages/service-worker/config/test/generator_spec.ts:82 | `/absolute/**` compiles to `\/absolute\/.*` |
| GeneratorVectors.SomeUrlGlob | packages/service-worker/config/test/generator_spec.ts:83 | `?` and `+` are escaped |
| GeneratorVectors.RelativeGlob | packages/service-worker/config/test/generator_spec.ts:84 | `*` compiles to `[^\/]*` and `.` is escaped |
| GeneratorVectors.ApiGlob | packages/service-worker/config/test/generator_spec.ts:89 | `/api/**` compiles to `\/api\/.*` |
| GeneratorVectors.RelapiGlob | packages/service-worker/config/test/generator_spec.ts:89 | the base-prefixed data URL compiles to `\/test\/relapi\/.*` |
| GeneratorVectors.IncludedAbsoluteGlob | packages/service-worker/config/test/generator_spec.ts:97 | `/included/absolute/**` compiles, anchored, to `^\/included\/absolute\/.*$` |
| GeneratorVectors.ExcludedAbsoluteGlob | packages/service-worker/config/test/generator_spec.ts:98 | `/excluded/absolute/**` compiles, anchored, to `^\/excluded\/absolute\/.*$` |
| GeneratorVectors.IncludedEscapedGlob | packages/service-worker/config/test/generator_spec.ts:99 | `/included/some/url?with+escaped+chars` compiles, anchored, with `?` and `+` escaped |
| GeneratorVectors.ExcludedRelativeGlob | packages/service-worker/config/test/generator_spec.ts:100 | the base-prefixed `/test/excluded/relative/*.txt` compiles, anchored, to `^\/test\/excluded\/relative\/[^\/]*\.txt$` |
| GeneratorVectors.SchemeIncludedGlob | packages/service-worker/config/test/generator_spec.ts:101 | `http://example.com/included` compiles, anchored, to `^http:\/\/example\.com\/included$`: `:` stays unescaped |
| GeneratorVectors.SchemeExcludedGlob | packages/service-worker/config/test/generator_spec.ts:102 | `http://example.com/excluded` compiles, anchored, to `^http:\/\/example\.com\/excluded$` |
| ConfigVectors.UnderTest | packages/service-worker/config/test/generator_spec.ts:40 | a relative URL is put under `/test` |
| ConfigVectors.KeepsScheme | packages/service-worker/config/test/generator_spec.ts:61 | a URL with a scheme is never base-prefixed |
| ConfigVectors.AssetGroupPatterns | packages/service-worker/config/test/generator_spec.ts:81-85 | the test group's three URL patterns, in order |
| ConfigVectors.DataGroupPatterns | packages/service-worker/config/test/generator_spec.ts:89 | the data group's two URL patterns, in order |
| ConfigVectors.ConfiguredNavigationRules | packages/service-worker/config/test/generator_spec.ts:96-103 | the six configured navigation rules compile to the six expected entries, in order |
| ConfigVectors.DefaultNavigationRules | packages/service-worker/config/test/generator_spec.ts:130-135 | an absent rule list yields the four default entries, in order |
| ListingVectors.DeepMatch | packages/service-worker/config/test/generator_spec.ts:31 | a leading `**` directory glob matches files at the top level as well as nested ones |
| ListingVectors.IndexSelection | packages/service-worker/config/test/generator_spec.ts:16 | `/index.html` is selected by `files` and not by `versionedFiles` |
| ListingVectors.TestTxtSelection | packages/service-worker/config/test/generator_spec.ts:17 | `/test.txt` is selected only by `versionedFiles` |
| ListingVectors.FooTestSelection | packages/service-worker/config/test/generator_spec.ts:18 | a nested HTML file is selected by `files` |
| ListingVectors.IgnoredSelection | packages/service-worker/config/test/generator_spec.ts:19 | the excluded file is selected by neither list |
| ListingVectors.PlainFiles | packages/service-worker/config/test/generator_spec.ts:30-33 | `files` picks the two HTML files in listing order |
| ListingVectors.VersionedFiles | packages/service-worker/config/test/generator_spec.ts:34-36 | `versionedFiles` picks the text file |
| ListingVectors.TestGroupFiles | packages/service-worker/config/test/generator_spec.ts:76-80 | `files` matches come before `versionedFiles` matches |
| ListingVectors.TestGroupResult | packages/service-worker/config/test/generator_spec.ts:72-86 | the whole compiled asset group of the test |
| ListingVectors.TestHashTable | packages/service-worker/config/test/generator_spec.ts:104-108 | the table holds the three URLs with their contents' digests |
| ListingVectors.TestDigests | packages/service-worker/config/test/generator_spec.ts:104-108 | exactly three keys, equal contents give equal digests, and the excluded file is absent |
| ManifestVectors.ThreeDays | packages/service-worker/config/test/generator_spec.ts:92 | `3d` is 259200000 ms |
| ManifestVectors.OneMinute | packages/service-worker/config/test/generator_spec.ts:93 | `1m` is 60000 ms, so `m` means minutes |
| ManifestVectors.OtherGroupResult | packages/service-worker/config/test/generator_spec.ts:87-95 | the whole compiled data group of the test |
| ManifestVectors.NoAssetGroups | packages/service-worker/config/test/generator_spec.ts:136 | no asset groups give no groups and an empty table |
| ManifestVectors.OneEachManifest | packages/service-worker/config/test/generator_spec.ts:65-109 | a configuration with one group of each kind yields the manifest assembled from their compilations |
| ManifestVectors.TestGroups | packages/service-worker/config/test/generator_spec.ts:72-86 | the asset pass of the test yields its one expected group |
| ManifestVectors.TestTable | packages/service-worker/config/test/generator_spec.ts:104-108 | the asset pass of the test yields the expected table |
| ManifestVectors.CorrectConfigHeader | packages/service-worker/config/test/generator_spec.ts:66-71 | schema version 1, the application data, and index `/test/index.html` |
| ManifestVectors.CorrectConfigAssetGroups | packages/service-worker/config/test/generator_spec.ts:72-86 | the manifest holds the one group `test`, with modes `prefetch`, its three file URLs in order and its three patterns |
| ManifestVectors.CorrectConfigDataGroups | packages/service-worker/config/test/generator_spec.ts:87-95 | the manifest holds the one data group `other`, with its two patterns, `performance`, 100, 259200000, 60000 and version 1 |
| ManifestVectors.CorrectConfigNavigation | packages/service-worker/config/test/generator_spec.ts:96-103 | the manifest holds the six configured navigation entries, in order, with their signs |
| ManifestVectors.CorrectConfigHashTable | packages/service-worker/config/test/generator_spec.ts:104-108 | the manifest's table maps the three claimed URLs to their contents' digests, and nothing else |
| ManifestVectors.DefaultsConfig | packages/service-worker/config/test/generator_spec.ts:115-141 | with only an index configured, the whole manifest is the expected defaults manifest |

## Left out

- The digest algorithm: it is the parameter `hash`, a function of file content. The test's 40-digit hexadecimal values (SHA-1) are not reproduced; only "equal content, equal digest" is stated.
- The filesystem: it is an ordered sequence of `(path, content)` entries. Listing cannot fail, so the `NoSuchBase` error has no counterpart. Reading a listed file cannot fail either, so the `UnreadableFile` path of the hash table is unreachable from `Generator.Process`.
- Asynchrony: promises, the `done` callback and the test framework's deep equality are not modelled. The model is a pure function from inputs to a `Result`.
- Application data: its contents are an opaque type parameter, passed through as `Option<A>`.
- Runtime use of the regexes: matching requests in the worker is not modelled, beyond the file matcher's own use of the compiled tokens.
- Structural validation of the configuration: the `InvalidSpec` error, such as a missing index, is not modelled. The index is a required field of the configuration datatype.
- Numbers: `maxSize` and durations are unbounded naturals. JavaScript's double-precision number limits are not modelled.
- Modes and strategy: these are free strings with defaults. No enumeration of their other legal values is invented.
- Generator.ProcessDataGroups: its own contract states only the error kind and the count. The per-group contents are stated by `Generator.DataGroupsEach`.
