/**
 * The older `resolve-files.py`, written against Fedora 27 and the freedesktop.org 1.6
 * runtime. Its shape is that of `tools/resolve-files.py`, with these differences: more
 * tables (fonts, headers, NSPR, pkg-config files); only `/usr/lib/` is moved to
 * `/usr/lib64/`; the search variants depend on the directory prefix alone; there is no
 * package filter; and the files map is built inline from every package's file list, with
 * the comparison that looks at architecture and version only, and kept in
 * `cache/files.map.gz`.
 *
 * The outputs are the same `Report` the newer resolver builds.
 */
module LegacyResolver {
  import opened Wrappers
  import opened Strings
  import opened Sorting
  import opened PathRules
  import opened Ranking
  import opened Resolver
  import FM = FilesMap
  import Repo

  // ---------------------------------------------------------------- the tables (a sample)

  const LegacyBinIgnore: seq<string> := ["addbuiltin", "atob", "aspell-import", "c2ph", "vpxdec", "vpxenc"]
  const LegacyBinRename: seq<(string, string)> := [
    ("jpgicc", "jpgicc2"), ("linkicc", "linkicc2"), ("psicc", "psicc2"), ("tificc", "tificc2"), ("transicc", "transicc2")]
  const LegacyLibIgnore: seq<string> := [
    "libEGL_indirect.so.0", "libgpgme-pthread.so.11", "libharfbuzz-gobject.so.0", "libssp.so.0"]
  const LegacyFontsIgnore: seq<string> := ["dejavu/DejaVuMathTeXGyre.ttf"]
  const LegacyLibRename: seq<(string, string)> := [
    ("libwebp.so.6", "libwebp.so.7"), ("libgif.so.7", "libgif.so.4"), ("ld-linux.so.2", "ld-linux-x86-64.so.2")]
  const LegacyIncludeIgnore: seq<string> := ["curl/curlbuild.h", "harfbuzz/hb-gobject.h"]
  const LegacyIncludeRename: seq<(string, string)> := [
    ("assuan.h", "libassuan2/assuan.h"), ("nss3/nssck.api", "nss3/templates/nssck.api")]
  const LegacyNsprInclude: seq<string> := ["nspr.h", "prio.h", "obsolete/prsem.h"]
  const LegacyPcIgnore: seq<string> := ["harfbuzz-gobject.pc", "libassuan.pc"]
  const LegacyPcRename: seq<(string, string)> := [("python-3.5.pc", "python-3.6.pc"), ("python-3.5m.pc", "python-3.6m.pc")]

  const LegacyIgnorePatterns: seq<Pattern> := [
    Prefix("/usr/bin/gawk-"), Prefix("/usr/bin/x86_64-unknown-linux-"), Prefix("/usr/include/md/"),
    Suffix("/.install")]

  const LegacyRenamePatterns: seq<Rewrite> := [
    Rewrite("/usr/include/c++/6.2.0/", "", "/usr/include/c++/7/"),
    Rewrite("/usr/include/c++/7/x86_64-unknown-linux/", "", "/usr/include/c++/7/x86_64-redhat-linux/"),
    Rewrite("/usr/share/fonts/liberation-fonts/", "", "/usr/share/fonts/liberation/")]

  /** The raw tables of the script. */
  datatype LegacyTables = LegacyTables(
    binIgnore: seq<string>, binRename: seq<(string, string)>, libIgnore: seq<string>,
    fontsIgnore: seq<string>, libRename: seq<(string, string)>, includeIgnore: seq<string>,
    includeRename: seq<(string, string)>, nsprInclude: seq<string>, pcIgnore: seq<string>,
    pcRename: seq<(string, string)>, ignorePatterns: seq<Pattern>, renamePatterns: seq<Rewrite>)

  const LegacySourceTables := LegacyTables(
    LegacyBinIgnore, LegacyBinRename, LegacyLibIgnore, LegacyFontsIgnore, LegacyLibRename,
    LegacyIncludeIgnore, LegacyIncludeRename, LegacyNsprInclude, LegacyPcIgnore, LegacyPcRename,
    LegacyIgnorePatterns, LegacyRenamePatterns)

  /** The exact ignore set: every table under its directory. */
  function LegacyIgnoreTable(t: LegacyTables): set<string> {
    {} + Prefixed("/usr/bin/", t.binIgnore) + Prefixed("/usr/lib64/", t.libIgnore)
    + Prefixed("/usr/share/fonts/", t.fontsIgnore) + Prefixed("/usr/include/", t.includeIgnore)
    + Prefixed("/usr/lib64/pkgconfig/", t.pcIgnore)
  }

  /** The exact rename table, later updates winning; the pkg-config renames apply in both pkg-config directories. */
  function LegacyRenameTable(t: LegacyTables): map<string, string> {
    map[] + PrefixedMap("/usr/bin/", "/usr/bin/", t.binRename)
    + PrefixedMap("/usr/lib64/", "/usr/lib64/", t.libRename)
    + PrefixedMap("/usr/include/", "/usr/include/", t.includeRename)
    + Moved("/usr/include/", "/usr/include/nspr4/", t.nsprInclude)
    + PrefixedMap("/usr/lib64/pkgconfig/", "/usr/lib64/pkgconfig/", t.pcRename)
    + PrefixedMap("/usr/share/pkgconfig/", "/usr/share/pkgconfig/", t.pcRename)
  }

  /** The module-level `ignore.update` and `rename.update` calls, in order. */
  method BuildLegacyRules(t: LegacyTables) returns (rules: Rules)
    ensures rules == Rules(LegacyIgnoreTable(t), t.ignorePatterns, LegacyRenameTable(t), t.renamePatterns)
  {
    var ignore: set<string> := {};
    var rename: map<string, string> := map[];
    ignore := ignore + Prefixed("/usr/bin/", t.binIgnore);
    rename := rename + PrefixedMap("/usr/bin/", "/usr/bin/", t.binRename);
    ignore := ignore + Prefixed("/usr/lib64/", t.libIgnore);
    ignore := ignore + Prefixed("/usr/share/fonts/", t.fontsIgnore);
    rename := rename + PrefixedMap("/usr/lib64/", "/usr/lib64/", t.libRename);
    ignore := ignore + Prefixed("/usr/include/", t.includeIgnore);
    rename := rename + PrefixedMap("/usr/include/", "/usr/include/", t.includeRename);
    rename := rename + Moved("/usr/include/", "/usr/include/nspr4/", t.nsprInclude);
    ignore := ignore + Prefixed("/usr/lib64/pkgconfig/", t.pcIgnore);
    rename := rename + PrefixedMap("/usr/lib64/pkgconfig/", "/usr/lib64/pkgconfig/", t.pcRename);
    rename := rename + PrefixedMap("/usr/share/pkgconfig/", "/usr/share/pkgconfig/", t.pcRename);
    rules := Rules(ignore, t.ignorePatterns, rename, t.renamePatterns);
  }

  /** Every NSPR header is looked up under `nspr4/`. */
  lemma NsprHeaderMoved(t: LegacyTables, i: nat)
    requires i < |t.nsprInclude|
    requires forall k :: 0 <= k < |t.pcRename| ==> "/usr/lib64/pkgconfig/" + t.pcRename[k].0 != "/usr/include/" + t.nsprInclude[i]
    requires forall k :: 0 <= k < |t.pcRename| ==> "/usr/share/pkgconfig/" + t.pcRename[k].0 != "/usr/include/" + t.nsprInclude[i]
    ensures "/usr/include/" + t.nsprInclude[i] in LegacyRenameTable(t)
    ensures LegacyRenameTable(t)["/usr/include/" + t.nsprInclude[i]] == "/usr/include/nspr4/" + t.nsprInclude[i]
  {
    var k := "/usr/include/" + t.nsprInclude[i];
    var moved := Moved("/usr/include/", "/usr/include/nspr4/", t.nsprInclude);
    assert k in moved;
    var j :| 0 <= j < |t.nsprInclude| && k == "/usr/include/" + t.nsprInclude[j] && moved[k] == "/usr/include/nspr4/" + t.nsprInclude[j];
    PrefixInjective("/usr/include/", t.nsprInclude[i], t.nsprInclude[j]);
    var lib64 := PrefixedMap("/usr/lib64/pkgconfig/", "/usr/lib64/pkgconfig/", t.pcRename);
    var share := PrefixedMap("/usr/share/pkgconfig/", "/usr/share/pkgconfig/", t.pcRename);
    assert k !in lib64;
    assert k !in share;
  }

  /**
   * The rename rules apply in order, each to the output of the previous one: a GCC 6.2.0
   * header of the unknown-linux target ends up under GCC 7's redhat-linux directory.
   */
  lemma CxxHeaderChain(ws: seq<Rewrite>, rest: string)
    requires ws == LegacyRenamePatterns
    ensures ApplyRewrites(ws, "/usr/include/c++/6.2.0/" + ("x86_64-unknown-linux/" + rest))
            == "/usr/include/c++/7/x86_64-redhat-linux/" + rest
  {
    var mid := "x86_64-unknown-linux/";
    CxxRulesMeet(ws, mid);
    CxxTarget(ws, rest);
    LiberationElsewhere(ws, rest);
    ChainedRules(ws, mid, rest);
  }

  lemma CxxRulesMeet(ws: seq<Rewrite>, mid: string)
    requires ws == LegacyRenamePatterns && mid == "x86_64-unknown-linux/"
    ensures ws[0].into + mid == ws[1].strip
    ensures ws[0].strip == "/usr/include/c++/6.2.0/"
  {
  }

  lemma CxxTarget(ws: seq<Rewrite>, rest: string)
    requires ws == LegacyRenamePatterns
    ensures ws[1].into + rest == "/usr/include/c++/7/x86_64-redhat-linux/" + rest
    ensures |ws| == 3 && ws[0].keep == "" && ws[1].keep == ""
  {
  }

  lemma LiberationElsewhere(ws: seq<Rewrite>, rest: string)
    requires ws == LegacyRenamePatterns
    ensures !RewriteMatches(ws[2], ws[1].into + rest)
  {
    var into, pre := ws[1].into, ws[2].strip + ws[2].keep;
    assert into[5] == 'i' && pre[5] == 's';
    PrefixChar(into, rest, 5);
    NotPrefixAt(into + rest, pre, 5);
  }

  /**
   * Three unconditional prefix rules where the first one's output is what the second one
   * strips, and the third one does not touch the second one's output.
   */
  lemma ChainedRules(ws: seq<Rewrite>, mid: string, rest: string)
    requires |ws| == 3 && ws[0].keep == "" && ws[1].keep == ""
    requires ws[0].into + mid == ws[1].strip
    requires !RewriteMatches(ws[2], ws[1].into + rest)
    ensures ApplyRewrites(ws, ws[0].strip + (mid + rest)) == ws[1].into + rest
  {
    var w1, w2, w3 := ws[0], ws[1], ws[2];
    var r := w1.strip + (mid + rest);
    ApplyOnPrefix(w1, mid + rest);
    var r1 := w1.into + (mid + rest);
    assert r1 == (w1.into + mid) + rest;
    ApplyOnPrefix(w2, rest);
    var r2 := w2.into + rest;
    assert ws[1..] == [w2, w3] && ws[2..] == [w3] && ws[3..] == [];
    assert ApplyRewrites(ws, r) == ApplyRewrites(ws[1..], r1);
    assert ApplyRewrites(ws[1..], r1) == ApplyRewrites(ws[2..], r2);
    assert ApplyRewrites(ws[2..], r2) == ApplyRewrites(ws[3..], r2);
  }

  // ---------------------------------------------------------------- reading the file list

  /** One line of the `.files` input: trailing white space removed, `/usr/lib/X` moved to `/usr/lib64/X`. */
  function LegacyNormalize(line: string): (r: string)
    ensures !StartsWith(r, "/usr/lib/")
    ensures RStrip(r) == r
    ensures StartsWith(RStrip(line), "/usr/lib/") ==> r == "/usr/lib64/" + RStrip(line)[9..]
    ensures !StartsWith(RStrip(line), "/usr/lib/") ==> r == RStrip(line)
  {
    var s := RStrip(line);
    if StartsWith(s, "/usr/lib/") then
      Lib64NotLib(s[9..]);
      "/usr/lib64/" + s[9..]
    else s
  }

  /** Normalising twice is normalising once. */
  lemma LegacyNormalizeIdempotent(line: string)
    ensures LegacyNormalize(LegacyNormalize(line)) == LegacyNormalize(line)
  {
  }

  /** The two scripts read a line alike unless it is under the Debian multiarch directory. */
  lemma NormalizeAgreesOffMultiarch(line: string)
    requires !StartsWith(RStrip(line), "/usr/lib/x86_64-linux-gnu/")
    ensures LegacyNormalize(line) == Normalize(line)
  {
  }

  /** A multiarch library keeps `x86_64-linux-gnu/` in the old script's reading and loses it in the new one's. */
  lemma MultiarchDiffers(line: string, lib: string, multiarch: string, rest: string)
    requires lib == "/usr/lib/" && multiarch == "x86_64-linux-gnu/"
    requires RStrip(line) == lib + (multiarch + rest)
    ensures LegacyNormalize(line) == "/usr/lib64/" + (multiarch + rest)
    ensures Normalize(line) == "/usr/lib64/" + rest
  {
    LegacyUnderLib(line, multiarch + rest, lib);
    Regroup(lib, multiarch, rest);
    MultiarchPrefix(lib, multiarch);
    NormalizeMultiarch(line, rest, lib + multiarch);
  }

  lemma LegacyUnderLib(line: string, tail: string, lib: string)
    requires lib == "/usr/lib/" && RStrip(line) == lib + tail
    ensures LegacyNormalize(line) == "/usr/lib64/" + tail
  {
    var s := RStrip(line);
    assert s[..|lib|] == lib;
    assert s[|lib|..] == tail;
  }

  lemma NormalizeMultiarch(line: string, rest: string, m: string)
    requires m == "/usr/lib/x86_64-linux-gnu/" && RStrip(line) == m + rest
    ensures Normalize(line) == "/usr/lib64/" + rest
  {
    var s := RStrip(line);
    assert s[..|m|] == m;
    assert s[26..] == rest;
  }

  lemma MultiarchPrefix(lib: string, multiarch: string)
    requires lib == "/usr/lib/" && multiarch == "x86_64-linux-gnu/"
    ensures lib + multiarch == "/usr/lib/x86_64-linux-gnu/"
  {
  }

  lemma Regroup(p: string, q: string, rest: string)
    ensures p + (q + rest) == (p + q) + rest
  {
  }

  function LegacyNormalizeAll(lines: seq<string>): (xs: seq<string>)
    ensures |xs| == |lines| && forall i :: 0 <= i < |lines| ==> xs[i] == LegacyNormalize(lines[i])
  {
    seq(|lines|, i requires 0 <= i < |lines| => LegacyNormalize(lines[i]))
  }

  /** `to_resolve`: the normalised lines in sorted order. */
  function LegacyToResolve(lines: seq<string>): (xs: seq<string>)
    ensures SortedBy(xs, Id, StringLe())
    ensures multiset(xs) == multiset(LegacyNormalizeAll(lines))
  {
    StringLeTotal();
    SortBySorted(LegacyNormalizeAll(lines), Id, StringLe());
    SortBy(LegacyNormalizeAll(lines), Id, StringLe())
  }

  /** The reading loop, then `to_resolve.sort()`. */
  method ReadLegacyFileList(lines: seq<string>) returns (toResolve: seq<string>)
    ensures toResolve == LegacyToResolve(lines)
  {
    var acc: seq<string> := [];
    for i := 0 to |lines|
      invariant acc == LegacyNormalizeAll(lines[..i])
    {
      acc := acc + [LegacyNormalize(lines[i])];
    }
    assert lines[..|lines|] == lines;
    toResolve := SortBy(acc, Id, StringLe());
  }

  // ---------------------------------------------------------------- where to look

  /** The search class: anything under `/usr/lib64/`, anything under `/usr/bin/`, or elsewhere. */
  function LegacyLocation(r: string): Location {
    if StartsWith(r, "/usr/lib64/") then Lib64Dir
    else if StartsWith(r, "/usr/bin/") then UsrBin
    else Elsewhere
  }

  function LegacyTail(r: string): string {
    if LegacyLocation(r) == Elsewhere then r else Basename(r)
  }

  /** The search list: `r`, then the same file name in the other library or binary directories. */
  function LegacySearchList(r: string): (search: seq<string>)
    ensures |search| == VariantCount(LegacyLocation(r)) && search[0] == r
    ensures forall k :: 0 <= k < |search| ==> EndsWith(search[k], LegacyTail(r))
  {
    LegacyTailIsSuffix(r);
    Variants(LegacyLocation(r), r, LegacyTail(r))
  }

  lemma LegacyTailIsSuffix(r: string)
    ensures EndsWith(r, LegacyTail(r))
  {
    if LegacyLocation(r) == Elsewhere {
      SuffixEndsWith(r, 0);
    } else {
      SuffixEndsWith(r, RFindChar(r, '/') + 1);
    }
  }

  /** A Python module under `/usr/lib64` is also looked for in `/lib64` by file name alone, which the newer script no longer does. */
  lemma SitePackagesSearch(rest: string, name: string)
    requires '/' !in name
    ensures LegacySearchList("/usr/lib64/" + rest + "/" + name) == ["/usr/lib64/" + rest + "/" + name, "/lib64/" + name]
  {
    var r := "/usr/lib64/" + rest + "/" + name;
    assert r[..11] == "/usr/lib64/";
    var i := RFindChar(r, '/');
    assert r[|r| - |name| - 1] == '/';
    assert r[|r| - |name|..] == name;
  }

  // ---------------------------------------------------------------- one path

  /** One iteration of the old resolution loop: no package filter. */
  function LegacyResolveOne(rules: Rules, filesMap: map<string, string>, r0: string): Outcome {
    if Ignored(rules, r0) then Skipped
    else
      var r := Renamed(rules, r0);
      if StartsWith(r, "/usr/lib64/libLLVM") then Llvm
      else LegacyClassify(r, FirstHit(filesMap, LegacySearchList(r)))
  }

  function LegacyClassify(r: string, providing: Option<string>): Outcome {
    match providing
    case None => Unmatched(r)
    case Some(p) => Matched(r, p)
  }

  function LegacyResolution(rules: Rules, filesMap: map<string, string>): (f: string -> Outcome)
    ensures forall r :: f(r) == LegacyResolveOne(rules, filesMap, r)
  {
    r => LegacyResolveOne(rules, filesMap, r)
  }

  /** Only the tables drop a path: every other path gives a line, or `llvm-libs`. */
  lemma OnlyTablesSkip(rules: Rules, filesMap: map<string, string>, r0: string)
    ensures LegacyResolveOne(rules, filesMap, r0).Skipped? <==> Ignored(rules, r0)
  {
  }

  /** A package is found exactly when it is the first hit for some path (or `llvm-libs` for a split LLVM library). */
  lemma LegacyFoundIff(rules: Rules, filesMap: map<string, string>, xs: seq<string>, p: string)
    ensures p in ResolveFrom(Empty, LegacyResolution(rules, filesMap), xs).found
            <==> exists i :: 0 <= i < |xs| && Provides(LegacyResolveOne(rules, filesMap, xs[i]), p)
  {
    FoundIff(Empty, LegacyResolution(rules, filesMap), xs, p);
  }

  /** Every known variant's package is kept: a path whose renamed form is found is always matched. */
  lemma LegacyKeepsEveryProvider(rules: Rules, filesMap: map<string, string>, r0: string)
    requires !Ignored(rules, r0) && !StartsWith(Renamed(rules, r0), "/usr/lib64/libLLVM")
    requires exists k :: 0 <= k < |LegacySearchList(Renamed(rules, r0))| && LegacySearchList(Renamed(rules, r0))[k] in filesMap
    ensures LegacyResolveOne(rules, filesMap, r0).Matched?
    ensures LegacyResolveOne(rules, filesMap, r0).path == Renamed(rules, r0)
  {
  }

  /** One iteration of the loop body, `continue` being an early return. */
  method LegacyResolvePath(rules: Rules, filesMap: map<string, string>, r0: string, rep: Report) returns (rep': Report)
    ensures rep' == Record(rep, LegacyResolveOne(rules, filesMap, r0))
  {
    rep' := rep;
    var r := r0;
    if r in rules.ignore {
      assert LegacyResolveOne(rules, filesMap, r0) == Skipped;
      return;
    }
    var skip := MatchesAny(rules.ignorePatterns, r);
    if skip {
      assert LegacyResolveOne(rules, filesMap, r0) == Skipped;
      return;
    }
    assert !Ignored(rules, r0);
    if r in rules.rename {
      r := rules.rename[r];
    }
    r := RewriteAll(rules.renamePatterns, r);
    assert r == Renamed(rules, r0);
    var search := LegacySearchList(r);
    if StartsWith(r, "/usr/lib64/libLLVM") {
      assert LegacyResolveOne(rules, filesMap, r0) == Llvm;
      rep' := rep'.(found := rep'.found + {"llvm-libs"});
      return;
    }
    var providing := FindProvider(filesMap, search);
    assert LegacyResolveOne(rules, filesMap, r0) == LegacyClassify(r, providing);
    rep' := LegacyWriteResult(r, providing, rep);
  }

  /** The tail of the loop body: write the unmatched path, or the provider. */
  method LegacyWriteResult(r: string, providing: Option<string>, rep: Report) returns (rep': Report)
    ensures rep' == Record(rep, LegacyClassify(r, providing))
  {
    if providing.None? {
      rep' := rep.(unmatched := rep.unmatched + [r], unmatchedCount := rep.unmatchedCount + 1);
    } else {
      rep' := rep.(found := rep.found + {providing.value}, matched := rep.matched + [MatchedLine(r, providing.value)]);
    }
  }

  /** The resolution loop over the sorted paths. */
  method LegacyResolveLoop(rules: Rules, filesMap: map<string, string>, toResolve: seq<string>)
    returns (matched: seq<string>, unmatched: seq<string>, found: set<string>, unmatchedCount: int)
    ensures Report(matched, unmatched, found, unmatchedCount) == ResolveFrom(Empty, LegacyResolution(rules, filesMap), toResolve)
    ensures unmatchedCount == |unmatched|
  {
    var f := LegacyResolution(rules, filesMap);
    var rep := Empty;
    for i := 0 to |toResolve|
      invariant rep == ResolveFrom(Empty, f, toResolve[..i])
      invariant rep.unmatchedCount == |rep.unmatched|
    {
      ResolvePrefixStep(f, toResolve, i);
      RecordCounts(rep, f(toResolve[i]));
      rep := LegacyResolvePath(rules, filesMap, toResolve[i], rep);
    }
    assert toResolve[..|toResolve|] == toResolve;
    matched, unmatched, found, unmatchedCount := rep.matched, rep.unmatched, rep.found, rep.unmatchedCount;
  }

  // ---------------------------------------------------------------- the files map

  /** A package of the repository: its tuple and the files it ships. */
  datatype RpmPackage = RpmPackage(nevra: Nevra, files: seq<string>)

  function PackageEntries(p: RpmPackage): (es: seq<FM.Entry>)
    ensures |es| == |p.files| && forall i :: 0 <= i < |es| ==> es[i] == FM.Entry(p.files[i], p.nevra)
  {
    seq(|p.files|, i requires 0 <= i < |p.files| => FM.Entry(p.files[i], p.nevra))
  }

  /** Every (file, package) pair, package by package, in query order. */
  function AllEntries(pkgs: seq<RpmPackage>): seq<FM.Entry>
    decreases |pkgs|
  {
    if |pkgs| == 0 then [] else AllEntries(pkgs[..|pkgs| - 1]) + PackageEntries(pkgs[|pkgs| - 1])
  }

  /** The script's `package_cmp` with dnf's version comparison fixed. */
  function LegacyCmp(evrCmp: (Nevra, Nevra) -> int): (cmp: (Nevra, Nevra) -> int)
    ensures forall a, b :: cmp(a, b) == LegacyPackageCmp(a, b, evrCmp)
  {
    (a: Nevra, b: Nevra) => LegacyPackageCmp(a, b, evrCmp)
  }

  /** The files map the script builds: for every file, the name of the package the comparison prefers. */
  function LegacyFilesMap(pkgs: seq<RpmPackage>, evrCmp: (Nevra, Nevra) -> int): map<string, string> {
    FM.Names(FM.Best(AllEntries(pkgs), LegacyCmp(evrCmp)))
  }

  /** The nested loop over packages and their files, then the loop replacing each package by its name. */
  method BuildFilesMap(pkgs: seq<RpmPackage>, evrCmp: (Nevra, Nevra) -> int) returns (filesMap: map<string, string>)
    ensures filesMap == LegacyFilesMap(pkgs, evrCmp)
  {
    var cmp := LegacyCmp(evrCmp);
    var m: map<string, Nevra> := map[];
    for i := 0 to |pkgs|
      invariant m == FM.Best(AllEntries(pkgs[..i]), cmp)
    {
      assert pkgs[..i + 1][..i] == pkgs[..i];
      m := OfferFiles(AllEntries(pkgs[..i]), m, pkgs[i], cmp);
    }
    assert pkgs[..|pkgs|] == pkgs;
    filesMap := FM.Finalize(m);
  }

  /** The inner loop: offer each file of `p` in turn. */
  method OfferFiles(ghost es: seq<FM.Entry>, m: map<string, Nevra>, p: RpmPackage, cmp: (Nevra, Nevra) -> int)
    returns (m': map<string, Nevra>)
    requires m == FM.Best(es, cmp)
    ensures m' == FM.Best(es + PackageEntries(p), cmp)
  {
    m' := m;
    assert es + PackageEntries(p)[..0] == es;
    for j := 0 to |p.files|
      invariant m' == FM.Best(es + PackageEntries(p)[..j], cmp)
    {
      var f := p.files[j];
      EntriesPrefixStep(es, PackageEntries(p), j);
      FM.BestSnoc(es + PackageEntries(p)[..j], FM.Entry(f, p.nevra), cmp);
      var old_ := if f in m' then Some(m'[f]) else None;
      if old_.None? || cmp(p.nevra, old_.value) < 0 {
        m' := m'[f := p.nevra];
      }
    }
    assert PackageEntries(p)[..|p.files|] == PackageEntries(p);
  }

  lemma EntriesPrefixStep(es: seq<FM.Entry>, more: seq<FM.Entry>, j: nat)
    requires j < |more|
    ensures es + more[..j + 1] == (es + more[..j]) + [more[j]]
  {
    assert more[..j + 1] == more[..j] + [more[j]];
  }

  /** The map holds exactly the files some package ships. */
  lemma {:induction false} LegacyFilesMapKeys(pkgs: seq<RpmPackage>, evrCmp: (Nevra, Nevra) -> int, f: string)
    ensures f in LegacyFilesMap(pkgs, evrCmp) <==> exists i, j :: 0 <= i < |pkgs| && 0 <= j < |pkgs[i].files| && pkgs[i].files[j] == f
  {
    var es := AllEntries(pkgs);
    FM.BestKeys(es, LegacyCmp(evrCmp), f);
    EntriesOfPackages(pkgs, f);
  }

  /** A file has an entry exactly when some package ships it. */
  lemma {:induction false} EntriesOfPackages(pkgs: seq<RpmPackage>, f: string)
    ensures (exists k :: 0 <= k < |AllEntries(pkgs)| && AllEntries(pkgs)[k].path == f)
            <==> exists i, j :: 0 <= i < |pkgs| && 0 <= j < |pkgs[i].files| && pkgs[i].files[j] == f
    decreases |pkgs|, 1
  {
    if |pkgs| > 0 {
      EntriesOfPackagesStep(pkgs, f);
    }
  }

  lemma {:induction false} EntriesOfPackagesStep(pkgs: seq<RpmPackage>, f: string)
    requires |pkgs| > 0
    ensures (exists k :: 0 <= k < |AllEntries(pkgs)| && AllEntries(pkgs)[k].path == f)
            <==> exists i, j :: 0 <= i < |pkgs| && 0 <= j < |pkgs[i].files| && pkgs[i].files[j] == f
    decreases |pkgs|, 0
  {
    var init := pkgs[..|pkgs| - 1];
    var p := pkgs[|pkgs| - 1];
    EntriesOfPackages(init, f);
    assert AllEntries(pkgs) == AllEntries(init) + PackageEntries(p);
    EntriesAppend(AllEntries(init), PackageEntries(p), f);
    ShipsLast(pkgs, init, f);
  }

  /** An entry of `a + b` for a path is one of `a` or one of `b`. */
  lemma EntriesAppend(a: seq<FM.Entry>, b: seq<FM.Entry>, f: string)
    ensures (exists k :: 0 <= k < |a + b| && (a + b)[k].path == f) <==>
      (exists k :: 0 <= k < |a| && a[k].path == f) || (exists k :: 0 <= k < |b| && b[k].path == f)
  {
    if exists k :: 0 <= k < |a + b| && (a + b)[k].path == f {
      var k :| 0 <= k < |a + b| && (a + b)[k].path == f;
      if k >= |a| {
        assert b[k - |a|].path == f;
      }
    }
    if exists k :: 0 <= k < |a| && a[k].path == f {
      var k :| 0 <= k < |a| && a[k].path == f;
      assert (a + b)[k].path == f;
    }
    if exists k :: 0 <= k < |b| && b[k].path == f {
      var k :| 0 <= k < |b| && b[k].path == f;
      assert (a + b)[|a| + k].path == f;
    }
  }

  /** A package shipping the file is one before the last, or the last one. */
  lemma ShipsLast(pkgs: seq<RpmPackage>, init: seq<RpmPackage>, f: string)
    requires |pkgs| > 0 && init == pkgs[..|pkgs| - 1]
    ensures var last := PackageEntries(pkgs[|pkgs| - 1]);
      (exists i, j :: 0 <= i < |pkgs| && 0 <= j < |pkgs[i].files| && pkgs[i].files[j] == f) <==>
      (exists i, j :: 0 <= i < |init| && 0 <= j < |init[i].files| && init[i].files[j] == f) ||
      (exists k :: 0 <= k < |last| && last[k].path == f)
  {
    var p := pkgs[|pkgs| - 1];
    if exists i, j :: 0 <= i < |pkgs| && 0 <= j < |pkgs[i].files| && pkgs[i].files[j] == f {
      var i, j :| 0 <= i < |pkgs| && 0 <= j < |pkgs[i].files| && pkgs[i].files[j] == f;
      if i < |init| {
        assert init[i] == pkgs[i];
      } else {
        assert PackageEntries(p)[j].path == f;
      }
    }
    if exists i, j :: 0 <= i < |init| && 0 <= j < |init[i].files| && init[i].files[j] == f {
      var i, j :| 0 <= i < |init| && 0 <= j < |init[i].files| && init[i].files[j] == f;
      assert init[i] == pkgs[i];
    }
    if exists k :: 0 <= k < |PackageEntries(p)| && PackageEntries(p)[k].path == f {
      var k :| 0 <= k < |PackageEntries(p)| && PackageEntries(p)[k].path == f;
      assert p.files[k] == f;
    }
  }

  /** A file some x86_64 package ships never goes to an i686 package. */
  lemma {:induction false} I686NeverShadows(es: seq<FM.Entry>, evrCmp: (Nevra, Nevra) -> int, f: string)
    requires exists i :: 0 <= i < |es| && es[i].path == f && !I686(es[i].pkg)
    ensures f in FM.Best(es, LegacyCmp(evrCmp)) && !I686(FM.Best(es, LegacyCmp(evrCmp))[f])
  {
    var cmp := LegacyCmp(evrCmp);
    var init := es[..|es| - 1];
    var e := es[|es| - 1];
    var m := FM.Best(init, cmp);
    if exists i :: 0 <= i < |init| && init[i].path == f && !I686(init[i].pkg) {
      I686NeverShadows(init, evrCmp, f);
    } else {
      assert e.path == f && !I686(e.pkg);
      if f in m {
        FM.BestFromEntries(init, cmp, f);
        var i :| 0 <= i < |init| && init[i].path == f && init[i].pkg == m[f];
        assert I686(m[f]);
        assert cmp(e.pkg, m[f]) == -1;
      }
    }
  }

  /** Between packages of one architecture and equal versions, the first package listed keeps the file, whatever its name. */
  lemma FirstOfEqualVersions(es: seq<FM.Entry>, evrCmp: (Nevra, Nevra) -> int, f: string, i: nat)
    requires i < |es| && es[i].path == f
    requires forall j :: 0 <= j < i ==> es[j].path != f
    requires forall j, k :: 0 <= j < |es| && 0 <= k < |es| && es[j].path == f && es[k].path == f ==>
               I686(es[j].pkg) == I686(es[k].pkg) && evrCmp(es[j].pkg, es[k].pkg) == 0
    ensures f in FM.Best(es, LegacyCmp(evrCmp)) && FM.Best(es, LegacyCmp(evrCmp))[f] == es[i].pkg
  {
    FM.BestFirstOfTies(es, LegacyCmp(evrCmp), f, i);
  }

  // ---------------------------------------------------------------- the cache, and the script

  type Cache = Option<Repo.CacheFile<map<string, string>>>

  /** `warn(msg)` takes one argument; a call with any other number raises `TypeError`. */
  function Warn(args: seq<string>): (r: Result<()>)
    ensures r.Ok? <==> |args| == 1
    ensures r.Err? ==> r.error == TypeError
  {
    if |args| == 1 then Ok(()) else Err(TypeError)
  }

  /**
   * The read of `cache/files.map.gz` as written: a missing file or a stale hash leaves no map;
   * a pickle that does not load reaches `warn` with two arguments.
   */
  function LoadAsWritten(file: Cache, repoHash: string): (r: Result<Option<map<string, string>>>)
    ensures r.Err? <==> Repo.LookupCache(file, repoHash).Corrupt?
    ensures r == Ok(None) <==> Repo.LookupCache(file, repoHash).Miss?
    ensures Repo.LookupCache(file, repoHash).Hit? ==> r == Ok(Some(Repo.LookupCache(file, repoHash).data))
  {
    match Repo.LookupCache(file, repoHash)
    case Miss => Ok(None)
    case Hit(m) => Ok(Some(m))
    case Corrupt =>
      match Warn(["Failed to load cache/files.map.gz:", "could not unpickle"])
      case Ok(_) => Ok(None)
      case Err(e) => Err(e)
  }

  /** The read as intended: a damaged cache is reported and treated like a missing one. */
  function LoadCorrected(file: Cache, repoHash: string): (r: Option<map<string, string>>)
    ensures r.Some? <==> Repo.LookupCache(file, repoHash).Hit?
    ensures r.Some? ==> r.value == Repo.LookupCache(file, repoHash).data
  {
    match Repo.LookupCache(file, repoHash)
    case Hit(m) => Some(m)
    case _ => None
  }

  /** A cache whose header matches but whose pickle is damaged ends the script with `TypeError`, where a rebuild was meant. */
  lemma CorruptCacheRaises(repoHash: string)
    ensures LoadAsWritten(Some(Repo.CacheFile(repoHash, None)), repoHash) == Err(TypeError)
    ensures LoadCorrected(Some(Repo.CacheFile(repoHash, None)), repoHash) == None
  {
  }

  /** The two reads agree on every cache that is not damaged. */
  lemma LoadsAgreeWhenReadable(file: Cache, repoHash: string)
    requires !Repo.LookupCache(file, repoHash).Corrupt?
    ensures LoadAsWritten(file, repoHash) == Ok(LoadCorrected(file, repoHash))
  {
  }

  /** The `cache` directory's one file. */
  class FilesMapCache {
    var file: Cache

    constructor(initial: Cache)
      ensures file == initial
    {
      file := initial;
    }

    /**
     * Read the cache with the corrected read, or build the map and store it tagged
     * with the repository hash. Either way the next read with that hash finds the map returned.
     */
    method LoadOrBuild(repoHash: string, pkgs: seq<RpmPackage>, evrCmp: (Nevra, Nevra) -> int)
      returns (filesMap: map<string, string>, rebuilt: bool)
      modifies this
      ensures var loaded := LoadCorrected(old(file), repoHash);
              && (loaded.Some? ==> filesMap == loaded.value && !rebuilt && file == old(file))
              && (loaded.None? ==> filesMap == LegacyFilesMap(pkgs, evrCmp) && rebuilt
                                   && file == Some(Repo.CacheFile(repoHash, Some(filesMap))))
      ensures LoadCorrected(file, repoHash) == Some(filesMap)
    {
      var loaded := LoadCorrected(file, repoHash);
      if loaded.Some? {
        return loaded.value, false;
      }
      filesMap := BuildFilesMap(pkgs, evrCmp);
      file := Some(Repo.CacheFile(repoHash, Some(filesMap)));
      rebuilt := true;
    }
  }

  /**
   * The whole script for one `.files` input: read and sort the paths, get the files map
   * (from the cache with the corrected read, or built), resolve, and sort the packages.
   */
  method LegacyResolveFiles(rules: Rules, lines: seq<string>, cache: FilesMapCache, repoHash: string,
                            pkgs: seq<RpmPackage>, evrCmp: (Nevra, Nevra) -> int)
    returns (matched: seq<string>, unmatched: seq<string>, packages: seq<string>, unmatchedCount: int)
    modifies cache
    ensures var filesMap := if LoadCorrected(old(cache.file), repoHash).Some?
                            then LoadCorrected(old(cache.file), repoHash).value else LegacyFilesMap(pkgs, evrCmp);
            var rep := ResolveFrom(Empty, LegacyResolution(rules, filesMap), LegacyToResolve(lines));
            && matched == rep.matched && unmatched == rep.unmatched && unmatchedCount == rep.unmatchedCount
            && StrictlyIncreasing(packages) && (forall p :: p in packages <==> p in rep.found)
            && LoadCorrected(cache.file, repoHash) == Some(filesMap)
    ensures unmatchedCount == |unmatched|
  {
    var toResolve := ReadLegacyFileList(lines);
    var filesMap, _ := cache.LoadOrBuild(repoHash, pkgs, evrCmp);
    var found;
    matched, unmatched, found, unmatchedCount := LegacyResolveLoop(rules, filesMap, toResolve);
    packages := SortedSet(found);
  }
}
