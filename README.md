# flatpak-runtime-scripts, modelled in Dafny

A model of the scripts that decide which Fedora packages go into the Fedora Flatpak runtimes
and that report on that choice:

- the shared helpers of `tools/util.py`: the package ranking `package_cmp`, the repository
  metadata lookup `get_metadata_file`, the SAX handler that streams `filelists.xml`
  (`FilesMapHandler`, `foreach_file`) and the hash-checked pickle cache `get_repo_cacheable`;
- `tools/resolve-files.py` and its older top-level predecessor `resolve-files.py`: the
  files map (every path to its best package), the ignore and rename rules, the
  library-directory normalisation, the alternative locations searched for a path and the
  package filtering that ends in the `.packages` list;
- the runtime reports of `tools/generate-runtime-report.py` and `generate-report.py`: the
  package table with its per-profile level, `required_by` and `files` attributes, how a row's
  inclusion, class, note and "why" text are derived, and the package-notes file;
- `tools/generate-app-reports.py`: the desktop-file map, the id mappings and their inversion,
  the ratings accumulated into an application, the summary counts, the package table of
  `dict_to_list` and the description sanitiser;
- `tools/generate-container-yaml.py`: the placeholder substitution, the sorted package list,
  the in-place rewriting of `name platforms` entries and the update of `flatpak.packages`.

One Dafny module per file: `Wrappers` (Option/Result and the Python exceptions that the
scripts raise), `Strings` (the `str` methods the scripts use), `Sorting` (a stable sort by
key, like Python's `sorted`), `Ranking`, `FilesMap`, `Repo`, `PathRules` (the pattern
language the resolvers share), `Resolver`, `LegacyResolver`, `ReportData`,
`RuntimeReport`, `LegacyReport`, `AppReports` and `ContainerYaml`.

Imperative code is modelled as imperative Dafny. `FilesMapHandler` is a class whose methods
update its fields. The SAX parse is a method that feeds a sequence of events to a fresh
handler. The package table of the runtime report is a class holding a map. `Application` is
a class. `update_container_yaml` rewrites an array in place. Each method is proved against a
function of its inputs and of the old state. The properties that the scripts rely on are
lemmas about those functions.

External calls are parameters:
- `rpm.labelCompare` is a function argument;
- the DNF or `fedmod` dependency resolution is the list of names it would print;
- the parsed XML, YAML and AppStream data are values of small datatypes;
- the gzip and pickle cache is a map from paths to stored files.

## Model

The `ReportData` rows cite `tools/generate-runtime-report.py`. The same members model the
matching code of `generate-report.py`: `nvr_to_name` at generate-report.py:21-23,
`SourcePackage` at 146-185, `add_package` at 197-207, `add_packages` at 209-237 (which only
reads a file, where the newer one also takes a set of names) and `add_package_files` at
239-249.

| member | source | states |
|---|---|---|
| Ranking.EvrOf | tools/util.py:104-109 | the `(epoch, version, release)` passed to `rpm.labelCompare`; a missing epoch becomes `'0'` |
| Ranking.PackageCmp | tools/util.py:73-109 | the result is -1 or 1, or else the names are equal and it is minus the version comparison |
| Ranking.I686Loses | tools/util.py:77-80 | an i686 package loses to every other package, in both argument orders |
| Ranking.CompatLoses | tools/util.py:82-85 | between packages of the same i686-ness, a `compat-` name loses to one without that prefix |
| Ranking.Python3Wins | tools/util.py:87-90 | without an earlier rule deciding, `python3-` beats `python2-` |
| Ranking.PipewireJackWins | tools/util.py:92-97 | without an earlier rule deciding, `pipewire-jack-audio-connection-kit` beats `jack-audio-connection-kit` |
| Ranking.NamesDecide | tools/util.py:99-102 | when no prefix rule applies, different names are ordered by plain string order |
| Ranking.NewerWins | tools/util.py:104-109 | for one name, the result is minus the version comparison, so the newer build is preferred |
| Ranking.TieIff | tools/util.py:73-109 | two packages tie exactly when they agree on i686-ness and name and their versions compare equal |
| Ranking.Antisymmetric | tools/util.py:73-109 | every rule is mirrored, so `cmp(p, q) == -cmp(q, p)` whenever the version comparison is antisymmetric |
| Ranking.Range | tools/util.py:73-109 | the result lies in -1..1 whenever the version comparison's does |
| Ranking.NotTransitive | tools/util.py:87-102 | `python2-x` < `python2z` < `python3-y` < `python2-x`: the ranking has a cycle, so it is not a total order |
| Ranking.LegacyPackageCmp | resolve-files.py:259-270 | the result is in -1..1; for packages of the same i686-ness it is negative iff the version comparison is positive, and zero iff it is zero |
| Ranking.LegacyI686Loses | resolve-files.py:260-263 | in the older ranking an i686 package also loses to every other package |
| Ranking.LegacyIgnoresNames | resolve-files.py:264-270 | the older ranking ignores names: equal versions tie whatever the names |
| Ranking.LegacyAntisymmetric | resolve-files.py:259-270 | the older ranking is antisymmetric whenever the version comparison is |
| FilesMap.OneCallPerFile | tools/util.py:165-172 | a document read to the end without error makes exactly one callback per closing `file` element |
| FilesMap.CharsAccumulate | tools/util.py:174-176 | text that arrives in pieces inside a `file` element accumulates into their concatenation |
| FilesMap.CharsOutsideIgnored | tools/util.py:174-176 | text outside a `file` element changes no state and makes no callback |
| FilesMap.FileElement | tools/util.py:162-172 | a `file` element makes one callback with its whole text; the tuple is the cached one, or else the tuple built from the current fields, which is then cached |
| FilesMap.PackageEndResets | tools/util.py:166-167 | closing a `package` drops the cached tuple and changes nothing else |
| FilesMap.CompletePackage | tools/util.py:153-172 | a complete package element with a version and one file yields one callback carrying that package's own name, epoch, version, release and arch |
| FilesMap.MissingVersionInherits | tools/util.py:157-161 | a package without a `version` element inherits the previous package's epoch, version and release, because the handler never clears them |
| FilesMap.FilesMapHandler.constructor | tools/util.py:142-151 | a fresh handler has every field `None` |
| FilesMap.FilesMapHandler.StartElement | tools/util.py:153-163 | the new fields are those of the start-element step. `ok` is false exactly where a missing attribute raises `KeyError`, and the assignments made before that point are kept |
| FilesMap.FilesMapHandler.EndElement | tools/util.py:165-172 | the new fields and the callback made are those of the end-element step |
| FilesMap.FilesMapHandler.Characters | tools/util.py:174-176 | the new fields are those of the characters step |
| FilesMap.ForeachFile | tools/util.py:179-187 | feeding the events to a fresh handler collects exactly the callbacks of the step function, and reports a `KeyError` |
| FilesMap.EntryOf | tools/resolve-files.py:597-600 | a callback has an entry exactly when it carries a path and a complete tuple; the entry holds that path and tuple |
| FilesMap.BestKeys | tools/resolve-files.py:597-600 | the fold's map holds exactly the paths of the entries |
| FilesMap.BestFromEntries | tools/resolve-files.py:597-600 | every package stored for a path was offered for that path |
| FilesMap.BestStrictWinner | tools/resolve-files.py:597-600 | a package that beats every other package offered for a path ends up owning that path |
| FilesMap.BestFirstOfTies | tools/resolve-files.py:597-600 | when no package offered for a path beats another, the first one seen keeps the path |
| FilesMap.Names | tools/resolve-files.py:604-606 | finalising keeps the keys and replaces every tuple by its name |
| FilesMap.Fold | tools/resolve-files.py:594-602 | running the callback over the entries one at a time computes the fold `Best` |
| FilesMap.Finalize | tools/resolve-files.py:604-607 | the loop over the map replaces every value by its name |
| FilesMap.MakeFilesMap | tools/resolve-files.py:594-609 | the result is the name of the best package for each path of the document, or `KeyError` when the handler raises |
| Repo.Components | tools/util.py:134 | a parsed path keeps no empty and no `.` components |
| Repo.Parent | tools/util.py:134 | `parent` keeps absoluteness and drops the last component; the root and `.` are their own parents |
| Repo.JoinPath | tools/util.py:134 | `base / loc`: an absolute `loc` replaces `base`; otherwise the components are appended |
| Repo.CommonPrefix | tools/util.py:135 | the common prefix is a prefix of both paths and stops at the first difference |
| Repo.CommonPath | tools/util.py:135 | `os.path.commonpath` succeeds exactly when both paths are absolute or both relative; otherwise it raises `ValueError` |
| Repo.CommonPrefixIsWhole | tools/util.py:135 | the common path of `a` and `b` is `b` exactly when `b`'s components begin `a`'s |
| Repo.FindLocation | tools/util.py:129-132 | a location is found exactly when some `data` element of that type has one; the first such one is returned |
| Repo.GetMetadataFile | tools/util.py:128-138 | an accepted path is the joined path, is absolute iff `metadata_path` is, and begins with `metadata_path`'s components; the result is `AssertionError` exactly when there is no location, `KeyError` exactly when the location has no `href`, `ValueError` exactly when the joined path and `metadata_path` differ in absoluteness, and `RuntimeError` exactly when the joined path does not begin with `metadata_path`'s components |
| Repo.MetadataFileAccepted | tools/util.py:134-138 | the check accepts exactly the paths whose components begin with those of `metadata_path` |
| Repo.Resolve | tools/util.py:134-135 | lexical `..` resolution keeps absoluteness |
| Repo.ResolveNoDots | tools/util.py:134-135 | a path without `..` components resolves to itself |
| Repo.DotDotEscapes | tools/util.py:134-136 | as written, `href` `repodata/../../etc/shadow` under `/cache/repodata` passes the check yet names `/etc/shadow` |
| Repo.GetMetadataFileResolved | tools/util.py:128-138 | with `..` resolved first, an accepted path really lies under `metadata_path` |
| Repo.ResolvedAgrees | tools/util.py:128-138 | where no `..` occurs, the corrected check gives the same result as the one written |
| Repo.LookupCache | tools/util.py:237-247 | a stored file is a hit exactly when its 64-character header equals the repository hash and its pickle loads; a missing file or a stale header is a miss |
| Repo.StoredIsHit | tools/util.py:249-254 | the file written after a miss (the hash, then the data) is a hit on that data |
| Repo.CacheStore.constructor | tools/util.py:235 | the cache directory starts with the given stored files |
| Repo.CacheStore.GetRepoCacheable | tools/util.py:231-257 | on a hit the stored data is returned, `generate` does not run and nothing is written; on a miss `generate` runs and its result is stored with the hash; a pickle that does not load raises |
| Repo.CacheSettles | tools/util.py:231-257 | after a successful call, a second call with the same hash is a hit on the same data |
| PathRules.MatchesAny | tools/resolve-files.py:643-648 | the `skip` flag is set exactly when some ignore pattern matches the path |
| PathRules.ApplyRewrite | tools/resolve-files.py:653-655 | a rewrite replaces the matched prefix `strip` by `into`; the result matches the reversed rule and has the expected length |
| PathRules.RewriteInverse | tools/resolve-files.py:653-655 | undoing a rewrite with the rule read backwards gives the path back |
| PathRules.ApplyOnPrefix | tools/resolve-files.py:653-655 | a path made of the rule's prefix and a rest beginning with its kept part becomes `into` followed by that rest |
| PathRules.RewriteAll | tools/resolve-files.py:653-655 | the loop over the rename patterns computes the ordered application `ApplyRewrites` |
| PathRules.RewritesCompose | tools/resolve-files.py:653-655 | the rules apply in list order: two lists run one after the other are their concatenation run once |
| PathRules.NoRewriteMatches | tools/resolve-files.py:653-655 | rules that match neither the path nor anything it becomes leave it alone |
| PathRules.ExactRenameOnce | tools/resolve-files.py:650-651 | the exact table is consulted once: a renamed path is not looked up again, even when it is itself a key |
| PathRules.UnrenamedKeepsName | tools/resolve-files.py:650-655 | a path that is no key of the exact table and that no rule matches keeps its name |
| PathRules.Prefixed | tools/resolve-files.py:96 | `ignore.update(prefix + x for x in names)` adds exactly the prefixed names |
| PathRules.PrefixedMap | tools/resolve-files.py:146 | `rename.update({prefix + k: prefix' + v})` has exactly the prefixed keys, each mapped to the prefixed value of one of its pairs |
| PathRules.PrefixedMapLastWins | tools/resolve-files.py:146 | as in a dict display, a key takes the value of the last pair that has it |
| Resolver.Moved | tools/resolve-files.py:280 | `{from + x: to + x for x in names}` has exactly the keys `from + x`, each mapped to `to + x` |
| Resolver.BuildRules | tools/resolve-files.py:27-459 | the module-level updates build the exact ignore set, the exact rename table and the two pattern lists of the configuration |
| Resolver.PlatformToolsIgnored | tools/resolve-files.py:106-107 | every tool of the Platform-only list is ignored under `/usr/bin/` for a Platform |
| Resolver.MakeIgnoredOnlyOnPlatform | tools/resolve-files.py:99-107 | `/usr/bin/make` is ignored exactly when the input is a Platform |
| Resolver.DejaVuMonoKeepsItsPackage | tools/resolve-files.py:449-450 | the rules apply in order: a `DejaVuSansMono` font goes to `dejavu-sans-mono-fonts`, and the broader `DejaVuSans` rule after it no longer sees it |
| Resolver.ShadowedRule | tools/resolve-files.py:653-655 | a rule whose output the next rule does not match has the last word on the path |
| Resolver.Normalize | tools/resolve-files.py:619-623 | the line loses its trailing white space; `/usr/lib/x86_64-linux-gnu/X` or else `/usr/lib/X` becomes `/usr/lib64/X`; no result lies under `/usr/lib/` |
| Resolver.NormalizeIdempotent | tools/resolve-files.py:619-623 | normalising a line twice is normalising it once |
| Resolver.NormalizeAll | tools/resolve-files.py:617-624 | each line is normalised in place in the list |
| Resolver.ToResolve | tools/resolve-files.py:616-626 | `to_resolve` is sorted and is a permutation of the normalised lines |
| Resolver.ReadFileList | tools/resolve-files.py:616-626 | the reading loop followed by `to_resolve.sort()` computes `ToResolve` |
| Resolver.SearchList | tools/resolve-files.py:657-673 | the search list is never empty and starts with the path itself |
| Resolver.SearchListKeepsTail | tools/resolve-files.py:657-673 | each location class has its fixed number of variants, and every variant keeps the file name or the path below the location's root |
| Resolver.Variants | tools/resolve-files.py:657-673 | the variants of a path with a given kept part all end with that part, the first being the path |
| Resolver.FirstHit | tools/resolve-files.py:680-685 | a provider is found exactly when some variant is in the files map; it is the package of the first such variant |
| Resolver.FindProvider | tools/resolve-files.py:680-685 | the `for ... break ... else` loop computes `FirstHit` |
| Resolver.UnmatchedIff | tools/resolve-files.py:639-689 | a path is written to `.unmatched` exactly when it is not ignored, its renamed form is no split LLVM library, and no variant of it is in the files map |
| Resolver.MatchedIff | tools/resolve-files.py:639-698 | a path is matched to `p` exactly when it is not ignored, is no split LLVM library, its first known variant names `p`, and no package filter drops `p` |
| Resolver.ResolveFromAppend | tools/resolve-files.py:639-698 | running the loop over `xs + ys` is running it over `xs`, then over `ys` |
| Resolver.SkippedInvisible | tools/resolve-files.py:640-648 | a skipped path changes no output and no counter, wherever it occurs |
| Resolver.IgnoredInvisible | tools/resolve-files.py:640-648 | an ignored path, listed exactly or matched by a pattern, appears in no output and changes no counter |
| Resolver.LinesInOrder | tools/resolve-files.py:687-698 | each unmatched path is written once, in input order, and counted once; each matched path gives one line, in input order |
| Resolver.FoundIff | tools/resolve-files.py:675-697 | a package is found exactly when some path is matched to it, or when it is `llvm-libs` and some path is a split LLVM library |
| Resolver.FilteredNeverFound | tools/resolve-files.py:691-695 | a provider that a package filter drops never reaches `.packages` (unless it is `llvm-libs`) |
| Resolver.ResolvePath | tools/resolve-files.py:639-698 | one iteration of the loop body records the outcome of `ResolveOne` |
| Resolver.WriteResult | tools/resolve-files.py:687-698 | the tail of the loop body records the classification of the lookup's result |
| Resolver.ResolveLoop | tools/resolve-files.py:639-698 | the loop over the sorted paths produces the report of `ResolveFrom`; `unmatched_count` is the number of unmatched lines |
| Resolver.UtilAttribute | tools/resolve-files.py:612 | `util.<name>` succeeds exactly for the names `tools/util.py` binds at module level, and raises `AttributeError` otherwise |
| Resolver.CachedFilesMap | tools/util.py:231-257 | the cache of `get_repo_cacheable('files-map', make_files_map)`: a hit returns the stored map, a damaged pickle raises, a miss stores the hash with the map built from the filelists, and a `KeyError` from the handler leaves the file alone |
| Resolver.CachedFilesMapSettles | tools/util.py:231-257 | after a successful call, the next call with the same hash returns the same map and leaves the file as it is, whatever the filelists are by then |
| Resolver.GetFilesMapRaises | tools/resolve-files.py:611-612 | `get_files_map` as written ends in `AttributeError` on every input, because `util.get_repo_map` does not exist |
| Resolver.ResolveFiles | tools/resolve-files.py:614-705 | `.matched` and `.unmatched` are those of the loop, and `.packages` is strictly increasing and holds exactly the found packages |
| LegacyResolver.BuildLegacyRules | resolve-files.py:124-257 | the module-level updates of the older script build its exact tables and pattern lists |
| LegacyResolver.NsprHeaderMoved | resolve-files.py:212 | every NSPR header is looked up under `nspr4/` unless a later pkg-config rename claims the same key |
| LegacyResolver.CxxHeaderChain | resolve-files.py:251-257 | the rules apply in order, each to the previous one's output: a GCC 6.2.0 header of the unknown-linux target ends up under GCC 7's redhat-linux directory |
| LegacyResolver.ChainedRules | resolve-files.py:251-257 | three prefix rules where the first one's output is what the second one strips, and the third does not touch the second one's output, compose |
| LegacyResolver.LegacyNormalize | resolve-files.py:350-353 | the line loses its trailing white space and `/usr/lib/X` becomes `/usr/lib64/X`; no result lies under `/usr/lib/` |
| LegacyResolver.LegacyNormalizeIdempotent | resolve-files.py:350-353 | normalising a line twice is normalising it once |
| LegacyResolver.NormalizeAgreesOffMultiarch | resolve-files.py:350-353 | the two scripts read every line alike unless it lies under `/usr/lib/x86_64-linux-gnu/` |
| LegacyResolver.MultiarchDiffers | resolve-files.py:350-353 | a multiarch library keeps `x86_64-linux-gnu/` in the older reading and loses it in the newer one |
| LegacyResolver.LegacyNormalizeAll | resolve-files.py:349-354 | each line is normalised in place in the list |
| LegacyResolver.LegacyToResolve | resolve-files.py:348-356 | `to_resolve` is sorted and is a permutation of the normalised lines |
| LegacyResolver.ReadLegacyFileList | resolve-files.py:348-356 | the reading loop followed by the sort computes `LegacyToResolve` |
| LegacyResolver.LegacySearchList | resolve-files.py:432-437 | the search list starts with the path, has the fixed number of variants of its class, and every variant keeps the file name |
| LegacyResolver.SitePackagesSearch | resolve-files.py:432-433 | a Python module under `/usr/lib64` is also looked for in `/lib64` by its file name alone |
| LegacyResolver.OnlyTablesSkip | resolve-files.py:414-426 | only the ignore tables drop a path: every other path gives a line, or `llvm-libs` |
| LegacyResolver.LegacyFoundIff | resolve-files.py:439-454 | a package is found exactly when some path's first hit is that package, or it is `llvm-libs` and some path is a split LLVM library |
| LegacyResolver.LegacyKeepsEveryProvider | resolve-files.py:444-454 | with no package filter, a path whose renamed form has a known variant is always matched, under its renamed form |
| LegacyResolver.LegacyResolvePath | resolve-files.py:414-454 | one iteration of the loop body records the outcome of `LegacyResolveOne` |
| LegacyResolver.LegacyWriteResult | resolve-files.py:449-454 | the tail of the loop body records the classification of the lookup's result |
| LegacyResolver.LegacyResolveLoop | resolve-files.py:414-454 | the loop over the sorted paths produces the report of `ResolveFrom`; `unmatched_count` is the number of unmatched lines |
| LegacyResolver.PackageEntries | resolve-files.py:390-391 | one entry per file of the package, in order, each naming the package |
| LegacyResolver.BuildFilesMap | resolve-files.py:387-400 | the nested loop over packages and files, then the loop replacing each package by its name, computes `LegacyFilesMap` |
| LegacyResolver.OfferFiles | resolve-files.py:390-394 | offering every file of one package extends the fold by that package's entries |
| LegacyResolver.LegacyFilesMapKeys | resolve-files.py:387-400 | the map holds exactly the files that some package ships |
| LegacyResolver.EntriesOfPackages | resolve-files.py:389-391 | a file has an entry exactly when some package ships it |
| LegacyResolver.I686NeverShadows | resolve-files.py:392-394 | a file that some non-i686 package ships never goes to an i686 package |
| LegacyResolver.FirstOfEqualVersions | resolve-files.py:392-394 | between packages of one architecture class and equal versions, the first package listed keeps the file, whatever its name |
| LegacyResolver.Warn | resolve-files.py:336-337 | `warn` takes exactly one argument; any other number raises `TypeError` |
| LegacyResolver.LoadAsWritten | resolve-files.py:373-385 | as written: a missing file or a stale hash gives no map, a readable cache gives its map, and a damaged pickle raises |
| LegacyResolver.LoadCorrected | resolve-files.py:373-385 | as intended: only a readable cache with the current hash gives a map, which is its stored data |
| LegacyResolver.CorruptCacheRaises | resolve-files.py:383-385 | a cache with the current hash but a damaged pickle ends the script with `TypeError`, where a rebuild was meant |
| LegacyResolver.LoadsAgreeWhenReadable | resolve-files.py:373-385 | the two reads agree on every cache that is not damaged |
| LegacyResolver.FilesMapCache.constructor | resolve-files.py:374 | the cache holds the given stored file |
| LegacyResolver.FilesMapCache.LoadOrBuild | resolve-files.py:370-406 | a readable cache is used unchanged; otherwise the map is built and stored with the hash; either way the next read with that hash gives the map returned |
| LegacyResolver.LegacyResolveFiles | resolve-files.py:346-461 | the older script's outputs are those of the loop over the sorted paths, with the cached or rebuilt map, and `.packages` holds exactly the found packages in strictly increasing order |
| ReportData.NvrToName | tools/generate-runtime-report.py:24-26 | a name is found exactly when the string has two hyphens or more; it is the prefix before the second-to-last hyphen, so exactly one hyphen follows it; otherwise `.group` on `None` raises `AttributeError` |
| ReportData.NvrRoundTrip | tools/generate-runtime-report.py:24-26 | the name of `name-version-release` comes back when version and release hold no hyphen |
| ReportData.AddPackageTo | tools/generate-runtime-report.py:214-224 | with `only_if_exists` an unknown name is left out; otherwise the package is created if needed, its level for the profile becomes the larger of old and new, its source package is overwritten only when one is given, and every other entry and field is unchanged |
| ReportData.AddPackageMonotone | tools/generate-runtime-report.py:221-222 | a level never goes down, and no stored package is lost |
| ReportData.AddNamesRoots | tools/generate-runtime-report.py:253-255 | after the plain loop every listed name that could be stored is at level 2 or more for the profile, and every package stored before is still there |
| ReportData.AddNamesMonotone | tools/generate-runtime-report.py:253-255 | the plain loop never lowers a level |
| ReportData.OnlyIfExistsCreatesNothing | tools/generate-runtime-report.py:214-218 | with `only_if_exists` no entry is ever created, so the Live and rf26 lists only mark existing packages |
| ReportData.AddResolvedMonotone | tools/generate-runtime-report.py:236-240 | the first loop over the resolved packages never lowers a level and never forgets a package |
| ReportData.RequireStep | tools/generate-runtime-report.py:243-252 | an empty provider list raises `IndexError`; a provider that is not stored is skipped; otherwise `(requiring package, req)` is appended to that provider's list for the profile, the list being created when missing, and nothing else changes |
| ReportData.AddRequiresKeepsLevels | tools/generate-runtime-report.py:243-252 | recording `required_by` entries for one package neither adds packages nor changes any level |
| ReportData.RequiredByKeepsLevels | tools/generate-runtime-report.py:242-252 | the second loop over the resolved packages neither adds packages nor changes any level |
| ReportData.AddPackagesMonotone | tools/generate-runtime-report.py:226-258 | whatever the source, a successful `add_packages` never lowers a level or forgets a package |
| ReportData.AddFields | tools/generate-runtime-report.py:263-270 | unpacking raises `ValueError` unless there are exactly two fields and `packages[p]` raises `KeyError` for an unknown package; otherwise the path, trailing `:` dropped, is appended to that package's list and nothing else changes |
| ReportData.MatchedLineReadBack | tools/generate-runtime-report.py:260-270 | a `.matched` line `path: provider` written by the resolver reads back as `path` filed under `provider` for the profile |
| ReportData.FilesTextShowsThree | tools/generate-runtime-report.py:82-88 | the files part starts with `Files: ` and, split back on spaces, names the first three files in order, then ` ...` exactly when there are more |
| ReportData.EntryLines | tools/generate-runtime-report.py:95 | one `'{} ({})'` line per entry, in order |
| ReportData.RequiredByLines | tools/generate-runtime-report.py:90-95 | the `required_by` text splits into one line per entry; the sorted order is a permutation of the entries ordered by the requiring package, and the unsorted order is the order of appending |
| ReportData.Why | tools/generate-runtime-report.py:81-104 | only the four runtimes have a `why`; the files part and the `required_by` part are joined by a newline when both are non-empty, otherwise concatenated |
| ReportData.WhyEmpty | tools/generate-runtime-report.py:97-104 | the text is empty exactly when both parts are |
| ReportData.WhyParts | tools/generate-runtime-report.py:97-104 | the text starts with the files part and ends with the `required_by` part |
| ReportData.SdkOnly | tools/generate-runtime-report.py:193-196 | the flag stays set exactly when no member is in either platform profile |
| ReportData.SourceKlass | tools/generate-runtime-report.py:191-202 | for no module or `installer`, `build-sdk` when no member is on a platform and `build-platform` otherwise; any other module gets `""` |
| ReportData.SourceModulesCases | tools/generate-runtime-report.py:169-184 | a package outside any module moves to its runtime module, an `installer` package shows the move with ` ⇒ `, any other module is kept |
| ReportData.PackageDb.constructor | tools/generate-runtime-report.py:213 | the table starts empty |
| ReportData.PackageDb.AddPackage | tools/generate-runtime-report.py:214-224 | the stored table becomes `AddPackageTo` of the old one |
| ReportData.PackageDb.AddPackages | tools/generate-runtime-report.py:226-258 | the call fails exactly when `AddPackagesTo` does, with the same exception, and otherwise leaves its table |
| ReportData.PackageDb.AddResolvedLoop | tools/generate-runtime-report.py:236-240 | the first resolved-package loop fails exactly when `AddResolved` does and otherwise leaves its table |
| ReportData.PackageDb.RequiredByLoop | tools/generate-runtime-report.py:242-252 | the second resolved-package loop fails exactly when `RecordRequiredBy` does and otherwise leaves its table |
| ReportData.PackageDb.RequiresLoop | tools/generate-runtime-report.py:243-252 | the loop over one package's `requires` items fails exactly when `AddRequires` does and otherwise leaves its table |
| ReportData.PackageDb.AddPackageFiles | tools/generate-runtime-report.py:260-270 | the loop over a `.matched` file fails exactly when `AddFileLines` does, with the same exception, and otherwise leaves its table |
| RuntimeReport.Inclusion | tools/generate-runtime-report.py:122-137 | each of the six outcomes holds exactly in its own case: `absent` at level 0, `dep` at level 1, `present` above that for Live and rf26, and for a runtime `files` when its `required_by` list is non-empty, `extra` for an `E…` flag, `root` otherwise |
| RuntimeReport.LiveListMarksPresent | tools/generate-runtime-report.py:214-218 | a stored package named on the Live list is `present` on the Live image afterwards |
| RuntimeReport.Klass | tools/generate-runtime-report.py:54-66 | the flags `F`, `F?`, `FD` and `W` map to their classes and any `E…` flag to `extra`; with no such flag the row has a class exactly when the package is on the GNOME platform and not on the Live image, and the class is then `questionable` |
| RuntimeReport.KlassIsStyle | tools/generate-runtime-report.py:54-66 | every class a row can get is one of the report's known classes |
| RuntimeReport.Note | tools/generate-runtime-report.py:73-79 | a non-empty note from the notes file wins; otherwise the Live-image remark in exactly the GNOME-but-not-Live case, else nothing |
| RuntimeReport.StripComment | tools/generate-runtime-report.py:279-280 | the comment-free text holds no `#`, and a line without `#` is just stripped |
| RuntimeReport.ParseNoteLine | tools/generate-runtime-report.py:278-308 | a line is skipped exactly when its comment-free text is empty; an unparsable line keeps that text for the warning; a parsed name is non-empty and starts with a non-space; a parsed flag matches `[A-Z_?]+$` |
| RuntimeReport.FromParts | tools/generate-runtime-report.py:283-306 | the `split(":", 2)` cases: the name is the stripped first part, a flag is a real flag, an unparsable line is handed back whole |
| RuntimeReport.FlaggedNoteRoundTrip | tools/generate-runtime-report.py:298-302 | `name: FLAG: note` reads back as that name, flag and note, even when the note holds colons |
| RuntimeReport.FlagOnlyRoundTrip | tools/generate-runtime-report.py:290-294 | `name: FLAG` reads back as that flag and no note |
| RuntimeReport.UnflaggedNoteKeepsRest | tools/generate-runtime-report.py:290-306 | when the text after the first colon does not start with a flag, the note is all of that text, unstripped and with its colons |
| RuntimeReport.NotesOf | tools/generate-runtime-report.py:278-308 | every note the generator yields has a non-empty name that starts with a non-space |
| RuntimeReport.ReadPackageNotes | tools/generate-runtime-report.py:272-308 | the loop yields the notes of the parsable lines in file order and warns about exactly the unparsable ones, in order |
| RuntimeReport.WithFlag | tools/generate-runtime-report.py:327-340 | every selected name comes from a note that carries one of the wanted flags |
| RuntimeReport.WithFlagMonotone | tools/generate-runtime-report.py:327-340 | a larger set of flags selects every name that a smaller set selects |
| RuntimeReport.DispatchExtras | tools/generate-runtime-report.py:322-340 | the four lists are exactly the names flagged `EB`; `EB` or `EB_SDK`; `EB` or `E`; and any of the four flags, each in file order |
| RuntimeReport.ExtrasNest | tools/generate-runtime-report.py:327-345 | an extra for the base platform also goes into the base SDK and the GNOME platform, and every extra goes into the GNOME SDK |
| RuntimeReport.LastFlagWins | tools/generate-runtime-report.py:383-392 | applying the notes keeps the same packages with the same levels, files and `required_by` lists; a package keeps the last flag given to it, or its old flag when none is given |
| RuntimeReport.ApplyNotes | tools/generate-runtime-report.py:382-392 | the table becomes `ApplyNotesTo` of the old one, with one warning per note whose package is unknown, in order |
| RuntimeReport.ProfileNamesIff | tools/generate-runtime-report.py:416-418 | a name is listed exactly when one of the packages has it and a non-zero level for the profile |
| RuntimeReport.ProfileNamesAppend | tools/generate-runtime-report.py:414-418 | listing two runs of packages one after the other gives the two lists concatenated |
| RuntimeReport.MemberNames | tools/generate-runtime-report.py:416-418 | the innermost loop lists the members present in the profile, in order |
| RuntimeReport.SourceNames | tools/generate-runtime-report.py:415-418 | the middle loop lists the members of the source packages present in the profile, in order |
| RuntimeReport.GenerateProfile | tools/generate-runtime-report.py:412-418 | the profile file lists the packages present in the profile, letter by letter and source package by source package |
| LegacyReport.LegacyInclusion | generate-report.py:107-120 | the five outcomes hold exactly in their cases; there is no `extra` |
| LegacyReport.InclusionsAgree | generate-report.py:107-120 | the older script shows the newer script's inclusion, except that it says `root` where the newer one says `extra` (the newer rule is at tools/generate-runtime-report.py:122-137) |
| LegacyReport.InclusionsAgreeUnflagged | generate-report.py:107-120 | without an `E…` flag the two scripts show the same inclusion |
| LegacyReport.LegacyKlass | generate-report.py:48-54 | the class is `not-on-live` exactly for a GNOME platform package missing from the Live image, and empty otherwise |
| LegacyReport.LegacyNote | generate-report.py:60-65 | the fixed Live-image remark in exactly the same case, and empty otherwise |
| LegacyReport.KlassNoteTogether | generate-report.py:48-65 | a row has a class exactly when it has a note |
| LegacyReport.NotesAgree | generate-report.py:60-65 | without a note from the notes file the newer script shows the same note (the newer rule is at tools/generate-runtime-report.py:73-79) |
| LegacyReport.LegacyWhyInOrder | generate-report.py:67-89 | with no files recorded, the `why` text splits into one line per `required_by` entry, in the order they were recorded |
| AppReports.DictOf | tools/generate-app-reports.py:15-79 | the dict literal maps each key to its value, and every key comes from an item |
| AppReports.InvertIdMappings | tools/generate-app-reports.py:81-82 | the loop over a snapshot of the items, writing `id_mappings[v] = k` as it goes, leaves `Inverted` of the table |
| AppReports.InvertedKeys | tools/generate-app-reports.py:81-82 | an id is in the inverted table exactly when it was a key or is some item's value |
| AppReports.InvertedValue | tools/generate-app-reports.py:81-82 | each value maps back to the key of the last item that has it |
| AppReports.InvertedKey | tools/generate-app-reports.py:81-82 | a key that is no item's value keeps its target |
| AppReports.InversionRoundTrip | tools/generate-app-reports.py:81-82 | for an id that is nobody's target and whose target only it has, the table leads from the id to its target and back |
| AppReports.InvertIdMappingsSpec | tools/generate-app-reports.py:81-82 | every target becomes a key of the table |
| AppReports.NoDesktop | tools/generate-app-reports.py:85-88 | an id ending in `.desktop` loses exactly that suffix; any other id is unchanged |
| AppReports.NoDesktopOnce | tools/generate-app-reports.py:85-88 | the suffix comes off once, so `x.desktop` becomes `x` whatever `x` ends with |
| Strings.BasenameSpec | tools/generate-app-reports.py:96 | `os.path.basename` returns text that holds no `/` and ends the path |
| AppReports.BasenameOf | tools/generate-app-reports.py:95-96 | a file directly under the applications directory has its own name as its base name |
| AppReports.DesktopEntriesMember | tools/generate-app-reports.py:94-96 | the callback sees exactly the desktop files of the calls, keyed by base name |
| AppReports.DesktopMapKeys | tools/generate-app-reports.py:91-106 | the desktop map's keys are exactly the base names of files shipped under `/usr/share/applications/` |
| AppReports.DesktopMapFromCalls | tools/generate-app-reports.py:97-104 | each stored name is that of a package that ships the desktop file |
| AppReports.DesktopMapPrefers | tools/generate-app-reports.py:97-99 | a package that `package_cmp` ranks first among all shippers of a desktop file is the one stored for it |
| AppReports.MakeDesktopMap | tools/generate-app-reports.py:91-106 | on a well-formed metadata stream the result is the desktop map of the calls; a malformed one raises `KeyError` |
| AppReports.Reached | tools/generate-app-reports.py:246-250 | the number of star buckets counted from `star0` before the first missing key, at most six |
| AppReports.Bumped | tools/generate-app-reports.py:246-250 | adding the reached buckets keeps six star counts |
| AppReports.Accumulated | tools/generate-app-reports.py:246-250 | the star buckets after a run of ratings, each adding the buckets the star loop reaches before a missing key: always six of them |
| AppReports.AccumulatedStep | tools/generate-app-reports.py:246-250 | one more rating bumps the buckets the earlier ratings left, those before its first missing key |
| AppReports.TotalAfter | tools/generate-app-reports.py:251-254 | the total after a run of ratings: unchanged by no ratings, and set once any complete rating came |
| AppReports.TotalAfterStep | tools/generate-app-reports.py:251-254 | one more rating adds its `total` exactly when it has every bucket and the total, `None` read as 0 |
| AppReports.AccumulatedSums | tools/generate-app-reports.py:246-254 | starting from a new application's unset buckets, each bucket ends as the sum of that bucket over the ratings, and stays unset only when there were none |
| AppReports.Application.constructor | tools/generate-app-reports.py:116-127 | every field starts unset, with six unset star buckets |
| AppReports.Application.CanonId | tools/generate-app-reports.py:129-136 | the Flathub id, else the Fedora id, else the ODRS id; there is one exactly when any of the three is set |
| AppReports.Application.DisplayName | tools/generate-app-reports.py:138-147 | the name when there is one; else the ODRS id without a trailing `.desktop`; with neither a name nor a non-empty ODRS id the `assert` fails |
| AppReports.Application.AddStars | tools/generate-app-reports.py:246-254 | it succeeds exactly when the rating has all six buckets and the total; every bucket before the first missing key is added, `None` read as 0; the total is added only on success; no other field changes |
| AppReports.Application.Rate | tools/generate-app-reports.py:240-254 | the package is filled from the desktop map only when it was unset and the map has a non-empty name for `k.desktop`; the ODRS id becomes `k`; the stars change as in `AddStars` |
| AppReports.RatingTarget | tools/generate-app-reports.py:230-239 | a rating goes to the application registered under its id, else to the one under the id the mapping table gives, else to a new one, and a new one exactly when neither exists |
| AppReports.FindApplication | tools/generate-app-reports.py:230-239 | the application `RatingTarget` finds, registered under `k` when it was found only through the mapping (line 237); with none found a new `Application` with unset stars and total, and the table unchanged |
| AppReports.RateAll | tools/generate-app-reports.py:229-254 | each rating in turn reaches the application `RatingTarget` finds in the table as it stands then, or a new one, and the table then maps the rating's id to it (lines 237 and 245); the loop gets through every rating exactly when all are complete and otherwise stops at the first incomplete one; new applications are neither old ones nor each other; every application ends with the buckets and total of exactly the ratings that reached it, in order |
| AppReports.StaysRegistered | tools/generate-app-reports.py:237-245 | once a rating's id is registered, every later table maps it to the same application |
| AppReports.SameIdSameApplication | tools/generate-app-reports.py:230-245 | a later rating whose id without `.desktop` is that of an earlier one reaches the earlier one's application |
| AppReports.RegisteredAtEnd | tools/generate-app-reports.py:245 | the final table maps every rated id to the application its rating reached |
| AppReports.RatingThroughInversion | tools/generate-app-reports.py:81-82 | through the inverted table a rating filed under a mapped-to id reaches the application registered under the original id, when no other entry maps there |
| AppReports.Category | tools/generate-app-reports.py:379-386 | each application falls in exactly one of the four categories, in the order the loop tests them |
| AppReports.CountsPartition | tools/generate-app-reports.py:379-386 | the four counts add up to the number of applications |
| AppReports.Summarize | tools/generate-app-reports.py:378-386 | the counters are the four category counts, and `Total`, their sum (line 433), is the number of applications |
| AppReports.SortedNames | tools/generate-app-reports.py:342 | `sorted` gives a sorted permutation of the names |
| AppReports.RowOf | tools/generate-app-reports.py:339-347 | a row carries the package name, both lists sorted and permuted, each count being its list's length; a `top` part is there exactly when the package has one |
| AppReports.BuildRows | tools/generate-app-reports.py:337-348 | the first loop builds the row of every package, each package once, in increasing name order |
| AppReports.SortKeepsRows | tools/generate-app-reports.py:349 | sorting keeps the rows and the packages they cover |
| AppReports.SortedByCount | tools/generate-app-reports.py:349 | the stable sort on `-all_count` leaves rows by descending count, equal counts in name order |
| AppReports.CountOrderDistinct | tools/generate-app-reports.py:349 | in that order no package appears twice |
| AppReports.DictToList | tools/generate-app-reports.py:336-351 | every package gets exactly one row, the row built for it, ordered by descending count and then by name |
| AppReports.TagAt | tools/generate-app-reports.py:374 | a kept tag at the start is three to five characters from `<` to `>` |
| AppReports.EscapeSafe | tools/generate-app-reports.py:373-375 | after the substitution every `<` and `>` left belongs to a kept tag |
| AppReports.EscapeSafeUnchanged | tools/generate-app-reports.py:373-375 | text whose brackets all belong to kept tags passes through unchanged |
| AppReports.EscapeIdempotent | tools/generate-app-reports.py:373-375 | escaping twice is escaping once |
| AppReports.EscapeRoundTrip | tools/generate-app-reports.py:359-375 | for text without `&`, turning `&lt;` and `&gt;` back into brackets gives the text back |
| AppReports.LineOf | tools/generate-app-reports.py:371 | the part of the text that `.*` can span: no newline, and a prefix that stops at the first newline |
| AppReports.LastAt | tools/generate-app-reports.py:371 | where a greedy `.*` before `</p>` ends: the last occurrence, and no later one |
| AppReports.LangParaAt | tools/generate-app-reports.py:371 | a match at the start is longer than the opening `<p xml:lang="` and fits in the text |
| AppReports.DropLangParas | tools/generate-app-reports.py:371 | removing the matches never lengthens the text |
| AppReports.DropWithoutOpen | tools/generate-app-reports.py:371 | without `<p xml:lang="` anywhere, the first substitution changes nothing |
| AppReports.ParaMatch | tools/generate-app-reports.py:371 | the pattern matches a translated paragraph that ends its line exactly, no shorter and no longer |
| AppReports.DropParagraph | tools/generate-app-reports.py:371 | such a paragraph disappears, up to its newline |
| AppReports.SanitizeDescription | tools/generate-app-reports.py:369-376 | every `<` and `>` in the result belongs to a kept tag |
| AppReports.SanitizeRoundTrip | tools/generate-app-reports.py:369-376 | a description without `&` and without translated paragraphs reads back from its sanitised form |
| ContainerYaml.ReplaceTemplate | tools/generate-container-yaml.py:31-33 | replacing a placeholder that stands between two pieces without `@` gives the pieces around the value |
| ContainerYaml.ReplaceAbsent | tools/generate-container-yaml.py:31-33 | text without the placeholder's first character is unchanged |
| ContainerYaml.SubstituteBoth | tools/generate-container-yaml.py:31-33 | a template holding `@ID_PREFIX@` and then `@RELEASE@`, pieces around them free of `@`, comes out with the two values in their places and nothing else changed |
| ContainerYaml.StrippedLines | tools/generate-container-yaml.py:55 | each line of the packages file is stripped, count and order kept |
| ContainerYaml.PackageList | tools/generate-container-yaml.py:40-55 | the list is a permutation of the preload packages plus the stripped lines, sorted case-insensitively, and entries of the same lower-cased form keep their input order |
| Sorting.SortByKeepsRank | tools/generate-container-yaml.py:55 | `sorted` is stable: the elements whose keys rank level come out in the order they went in |
| ContainerYaml.PackageListHasAll | tools/generate-container-yaml.py:40-55 | every preload package and every stripped line is in the list |
| ContainerYaml.ReshapeSpec | tools/generate-container-yaml.py:59-66 | a name of exactly two white-space separated words becomes an `only-on` entry for the first word, whose platforms joined by commas give back the second word; anything else is kept |
| ContainerYaml.PlainNameKept | tools/generate-container-yaml.py:59-66 | a one-word name is kept as it is |
| ContainerYaml.PlatformsRoundTrip | tools/generate-container-yaml.py:59-66 | the line `name platform,platform` becomes the `only-on` entry for that name and those platforms |
| ContainerYaml.ReshapeAllAt | tools/generate-container-yaml.py:58-66 | the loop reshapes each entry on its own and keeps the length |
| ContainerYaml.ReshapeAt | tools/generate-container-yaml.py:59-66 | one pass of the loop body reshapes entry `i` and leaves the other entries |
| ContainerYaml.ReshapeInPlace | tools/generate-container-yaml.py:58-66 | the loop, which assigns `packages[i]` in place, leaves every entry reshaped |
| ContainerYaml.NamesOf | tools/generate-container-yaml.py:53-57 | the package names as plain entries, in order |
| ContainerYaml.ReshapedEntries | tools/generate-container-yaml.py:53-66 | the entries the document gets: every name of the list reshaped, in order |
| ContainerYaml.SetPackages | tools/generate-container-yaml.py:68 | a missing `flatpak` raises `KeyError` and a non-mapping one `TypeError`; otherwise only `flatpak.packages` is set, to the entries, and every other key keeps its value |
| ContainerYaml.UpdatePackages | tools/generate-container-yaml.py:53-68 | the document gets its `flatpak.packages` from the sorted, reshaped package list, with the same errors as `SetPackages` |

## Left out

- Regular expressions: the ignore and rename tables are modelled in a small pattern language (exact, prefix and suffix matches, and prefix rewrites). The tables are representative samples, not the hundreds of entries in the scripts. The resolver theorems hold for any tables.
- Rename patterns that are not prefix rewrites are not modelled, such as `^/usr/lib64/pkgconfig/(.*proto.pc)` at tools/resolve-files.py:441 and resolve-files.py:254. In the legacy rule `c\+\+/6.2.0/` the unescaped `.` is read as a literal dot.
- `rpm.labelCompare` and DNF's `evr_cmp` are foreign code. They are a comparison function given as a parameter, and antisymmetry is required where a lemma needs it.
- Ranking.PackageCmp: no total-order or transitivity lemma, because the rule cascade is not transitive (`python2-x`, `python2z`, `python3-y` form a cycle). Ranking.NotTransitive exhibits the cycle. The model follows the code.
- All I/O is left out: file reads and writes, gzip, pickle, SHA-256 hashing, XML parsing (the SAX stream is an event sequence and `repomd.xml` a list of data entries), subprocess calls to `fedmod` and `flatpak-module-depchase` (their results are parameters), HTTP paging in `load_fedora_flatpaks`, and the AppStream `gi` bindings.
- `locale.strxfrm` orderings are left out, with the grouping by source package and by letter. The profile loop takes the letters as given.
- Jinja2 rendering, YAML load and dump, and the `folded`/`literal` styles set at tools/generate-container-yaml.py:37-38 are left out. The document is a value of a small datatype.
- `star_avg` (floating point, tools/generate-app-reports.py:410-414) is left out, as is the rest of the `output_item` assembly at lines 388-420.
- The Flathub merge loop (tools/generate-app-reports.py:179-224) is left out. It is driven by AppStream data and homepage exceptions and has `print`/`assert` side effects. `RateAll` takes the table that loop leaves as its `ids` parameter.
- The runtime/extra split and the `top` report (tools/generate-app-reports.py:314-334) are left out. `dict_to_list` takes the resulting table.
- Progress bars and terminal output (`start`, `done`, the progress redraw) are left out. Warnings are returned as lists of strings.
- `SourcePackage.sdk_only` (tools/generate-runtime-report.py:186-188, generate-report.py:169-171) is left out: it returns a global that never exists. Only the local flag in `klass` is modelled.
- `package_to_module` parsing, `Package.modules`, `count_lines` and `unmatched_counts` are left out. They are subprocess output and line counts whose only use is rendering.
- Strings.Lower: `str.lower()` is modelled on ASCII letters only. Other case mappings are not.
- FilesMap.EntryOf: a callback whose tuple lacks a name, version, release or arch gets no entry, so its path is not in the files map. The source would store such a tuple when it is the first offer for the path. The model assumes that filelists metadata never puts a `file` before a package's `version` or outside a `package`. The same holds for AppReports.DesktopEntry.
- AppReports.SanitizeDescription: the comment in the source says every `<>&` is quoted, but the code leaves `&` alone. The model follows the code, so the round trip needs text without `&`.
- AppReports.DesktopMapKeys, AppReports.DesktopMapPrefers and AppReports.DesktopMapFromCalls are stated for any applications directory and any comparison function. `make_desktop_map` itself uses `/usr/share/applications/` and `util.package_cmp`.
- ContainerYaml.PackageList takes the preload list as a parameter. `UpdatePackages` passes it the ten entries of tools/generate-container-yaml.py:40-51.
- `Package` is a value with a level per profile. The table that `add_package` updates is a field of the `PackageDb` class.
- The id table maps ids to `Application` objects, so several ids may share one, as `RateAll` allows. The Flathub merge that makes them share is not modelled.
- AppReports.RateAll: the ratings are a sequence of id and rating pairs in the order of `ratings.items()`; loading `out/ratings.json` is left out. Its contract does not restate the package and ODRS id each application ends with; `Rate` states them for each pass.

## Findings

| source | as written | input that shows it | evidently intended | confidence | as-written member | corrected member |
|---|---|---|---|---|---|---|
| tools/util.py:133-136 | `os.path.commonpath` is applied without resolving `..`, so the containment check is lexical | `href="repodata/../../etc/shadow"` with `metadata_path` `/cache/repodata`: the joined path `/cache/repodata/../../etc/shadow` has `metadata_path` as its common path with it, yet names `/etc/shadow` | a metadata file outside the repository is refused | not executed | Repo.DotDotEscapes | Repo.GetMetadataFileResolved |
| tools/resolve-files.py:611-612 | `get_files_map` calls `util.get_repo_map`, which tools/util.py does not define; its cache helper is `get_repo_cacheable` (line 231) | any run: line 630 calls `get_files_map` before any path is resolved | the files map is read from the repository cache, or built and stored | not executed | Resolver.GetFilesMapRaises | Resolver.CachedFilesMap |
| resolve-files.py:383-385 | `warn("Failed to load cache/files.map.gz:", e)` passes two arguments to the one-argument `warn` (line 336) | a cache file whose hash matches but whose pickle is truncated | the warning is printed and the map is rebuilt | not executed | LegacyResolver.CorruptCacheRaises | LegacyResolver.LoadCorrected |
