/**
 * `tools/resolve-files.py`: every path a Flatpak runtime ships is normalised, sorted, run
 * through the ignore and rename tables, looked up in the files map under a few
 * location-specific variants, and written to `.matched` or `.unmatched`; the providing
 * packages end up, sorted, in `.packages`.
 *
 * The outputs of the resolution loop are a `Report`, built by `ResolveFrom` from what
 * each path comes to (an `Outcome`). Both resolvers share that machinery.
 */
module Resolver {
  import opened Wrappers
  import opened Strings
  import opened Sorting
  import opened PathRules
  import Ranking
  import FM = FilesMap
  import Repo

  // ---------------------------------------------------------------- the tables (a sample)

  const BinIgnore: seq<string> := ["aspell-import", "gdialog", "nscd", "sln", "trace"]
  /** Development tools of the freedesktop runtime, ignored only for a Platform. */
  const PlatformBinIgnore: seq<string> := ["fftw-wisdom", "make", "m4", "orcc"]
  const BinRename: seq<(string, string)> := [("bzfless", "bzless"), ("clang-17", "clang")]
  const LibIgnore: seq<string> := ["libEGL_indirect.so.0"]
  const LibRename: seq<(string, string)> := [("ld-linux.so.2", "ld-linux-x86-64.so.2")]
  const GccLibs: seq<string> := ["libasan.so", "libatomic.so", "libgcc_s.so"]
  const ElfutilsLibs: seq<string> := ["libasm-0.189.so", "libdw-0.189.so", "libelf-0.189.so", "libdebuginfod-0.189.so"]

  const IgnorePatterns: seq<Pattern> := [
    Prefix("/usr/bin/gawk-"), Prefix("/usr/bin/x86_64-unknown-linux-"),
    Prefix("/usr/include/md/"), Prefix("/usr/include/textstyle")]

  const RenamePatterns: seq<Rewrite> := [
    Rewrite("/usr/include/", "libav", "/usr/include/ffmpeg/"),
    Rewrite("/usr/include/", "libsw", "/usr/include/ffmpeg/"),
    Rewrite("/usr/include/nss/", "", "/usr/include/nss3/"),
    Rewrite("/usr/lib64/python3.11/", "", "/usr/lib64/python3.12/"),
    Rewrite("/usr/share/fonts/dejavu/", "DejaVuSansMono", "/usr/share/fonts/dejavu-sans-mono-fonts/"),
    Rewrite("/usr/share/fonts/dejavu/", "DejaVuSans", "/usr/share/fonts/dejavu-sans-fonts/")]

  const GlobalPackageIgnore: seq<Pattern> := [
    Prefix("fcitx-"), Exact("arptables-legacy"), Exact("audit"), Exact("gitk"), Exact("elfutils-debuginfod")]

  const PlatformPackageIgnore: seq<Pattern> := [
    Suffix("-devel"), Prefix("appstream-compose"), Exact("gperf"), Exact("llvm"), Prefix("perl"), Exact("sqlite")]

  /** The raw tables, before the module-level code combines them. */
  datatype Tables = Tables(
    binIgnore: seq<string>, platformBinIgnore: seq<string>, binRename: seq<(string, string)>,
    libIgnore: seq<string>, libRename: seq<(string, string)>, gccLibs: seq<string>,
    elfutilsLibs: seq<string>, ignorePatterns: seq<Pattern>, renamePatterns: seq<Rewrite>)

  const SourceTables := Tables(
    BinIgnore, PlatformBinIgnore, BinRename, LibIgnore, LibRename, GccLibs, ElfutilsLibs,
    IgnorePatterns, RenamePatterns)

  /** `{from + x: to + x for x in names}`. */
  function Moved(from: string, to: string, names: seq<string>): (m: map<string, string>)
    ensures forall i :: 0 <= i < |names| ==> from + names[i] in m
    ensures forall k :: k in m ==> exists i :: 0 <= i < |names| && k == from + names[i] && m[k] == to + names[i]
    decreases |names|
  {
    if |names| == 0 then map[]
    else
      var init := names[..|names| - 1];
      var last := names[|names| - 1];
      assert forall i :: 0 <= i < |init| ==> init[i] == names[i];
      Moved(from, to, init)[from + last := to + last]
  }

  /** The elfutils loop over `m`: each library also known with `-0.191` in place of `-0.189`. */
  function ElfutilsRename(m: map<string, string>, olds: seq<string>): map<string, string>
    decreases |olds|
  {
    if |olds| == 0 then m
    else
      var old_ := olds[|olds| - 1];
      ElfutilsRename(m, olds[..|olds| - 1])["/usr/lib64/" + old_ := "/usr/lib64/" + Replace(old_, "-0.189", "-0.191")]
  }

  /** The exact ignore set: the Platform-only tools join it only for a Platform. */
  function IgnoreTable(t: Tables, isPlatform: bool): set<string> {
    var ignore := {} + Prefixed("/usr/bin/", t.binIgnore);
    var ignore := if isPlatform then ignore + Prefixed("/usr/bin/", t.platformBinIgnore) else ignore;
    ignore + Prefixed("/usr/lib64/", t.libIgnore)
  }

  /** The exact rename table, later updates winning. */
  function RenameTable(t: Tables): map<string, string> {
    var rename := map[] + PrefixedMap("/usr/bin/", "/usr/bin/", t.binRename);
    var rename := rename + PrefixedMap("/usr/lib64/", "/usr/lib64/", t.libRename);
    var rename := rename + Moved("/usr/lib64/", "/usr/lib/gcc/x86_64-redhat-linux/14/", t.gccLibs);
    ElfutilsRename(rename, t.elfutilsLibs)
  }

  /** The tables as the module-level code leaves them, one `update` after another. */
  method BuildRules(t: Tables, isPlatform: bool) returns (rules: Rules)
    ensures rules == Rules(IgnoreTable(t, isPlatform), t.ignorePatterns, RenameTable(t), t.renamePatterns)
  {
    var ignore: set<string> := {};
    var rename: map<string, string> := map[];
    ignore := ignore + Prefixed("/usr/bin/", t.binIgnore);
    if isPlatform {
      ignore := ignore + Prefixed("/usr/bin/", t.platformBinIgnore);
    }
    rename := rename + PrefixedMap("/usr/bin/", "/usr/bin/", t.binRename);
    ignore := ignore + Prefixed("/usr/lib64/", t.libIgnore);
    rename := rename + PrefixedMap("/usr/lib64/", "/usr/lib64/", t.libRename);
    rename := rename + Moved("/usr/lib64/", "/usr/lib/gcc/x86_64-redhat-linux/14/", t.gccLibs);
    var before := rename;
    var olds := t.elfutilsLibs;
    for i := 0 to |olds|
      invariant rename == ElfutilsRename(before, olds[..i])
    {
      var old_ := olds[i];
      assert olds[..i + 1][..i] == olds[..i];
      rename := rename["/usr/lib64/" + old_ := "/usr/lib64/" + Replace(old_, "-0.189", "-0.191")];
    }
    assert olds[..|olds|] == olds;
    rules := Rules(ignore, t.ignorePatterns, rename, t.renamePatterns);
  }

  /** Every path of the Platform-only list is ignored for a Platform. */
  lemma PlatformToolsIgnored(t: Tables, i: nat)
    requires i < |t.platformBinIgnore|
    ensures "/usr/bin/" + t.platformBinIgnore[i] in IgnoreTable(t, true)
  {
  }

  /** `make` is ignored for a Platform and looked up otherwise. */
  lemma MakeIgnoredOnlyOnPlatform(isPlatform: bool)
    ensures "/usr/bin/make" in IgnoreTable(SourceTables, isPlatform) <==> isPlatform
  {
    var make := "/usr/bin/make";
    assert "/usr/bin/" + PlatformBinIgnore[1] == make;
    forall i | 0 <= i < |BinIgnore| ensures "/usr/bin/" + BinIgnore[i] != make {
      PrefixInjective("/usr/bin/", BinIgnore[i], "make");
    }
    forall i | 0 <= i < |LibIgnore| ensures "/usr/lib64/" + LibIgnore[i] != make {
      assert ("/usr/lib64/" + LibIgnore[i])[5] != make[5];
    }
  }

  /**
   * The rules apply in order: a `DejaVuSansMono` font is moved by the first font rule and
   * the second, broader one no longer sees it under the old directory.
   */
  lemma DejaVuMonoKeepsItsPackage(tail: string)
    ensures ApplyRewrites(RenamePatterns, "/usr/share/fonts/dejavu/DejaVuSansMono" + tail)
            == "/usr/share/fonts/dejavu-sans-mono-fonts/DejaVuSansMono" + tail
  {
    var r := "/usr/share/fonts/dejavu/DejaVuSansMono" + tail;
    var moved := "/usr/share/fonts/dejavu-sans-mono-fonts/DejaVuSansMono" + tail;
    var early, late := RenamePatterns[..4], RenamePatterns[4..];
    assert RenamePatterns == early + late;
    assert r[5] == 's';
    UnderShare(early, r);
    NoRewriteMatches(early, r);
    RewritesCompose(early, late, r);
    MonoRule(late[0], tail);
    assert moved[..24] == "/usr/share/fonts/dejavu-";
    OutsideDejaVu(late[1], moved);
    ShadowedRule(late[0], late[1], r);
    assert late == [late[0], late[1]];
  }

  /** The first four rules are about `/usr/include` and `/usr/lib64`. */
  lemma UnderShare(early: seq<Rewrite>, r: string)
    requires early == RenamePatterns[..4] && |r| > 5 && r[5] == 's'
    ensures forall i :: 0 <= i < |early| ==> !RewriteMatches(early[i], r)
  {
    forall i | 0 <= i < |early| ensures !RewriteMatches(early[i], r) {
      assert r[5] == 's' && (early[i].strip + early[i].keep)[5] != 's';
    }
  }

  lemma MonoRule(w: Rewrite, tail: string)
    requires w == Rewrite("/usr/share/fonts/dejavu/", "DejaVuSansMono", "/usr/share/fonts/dejavu-sans-mono-fonts/")
    ensures RewriteMatches(w, "/usr/share/fonts/dejavu/DejaVuSansMono" + tail)
    ensures ApplyRewrite(w, "/usr/share/fonts/dejavu/DejaVuSansMono" + tail)
            == "/usr/share/fonts/dejavu-sans-mono-fonts/DejaVuSansMono" + tail
  {
    var r := "/usr/share/fonts/dejavu/DejaVuSansMono" + tail;
    assert r == w.strip + w.keep + tail;
    assert r[..|w.strip + w.keep|] == w.strip + w.keep;
    assert r[|w.strip|..] == w.keep + tail;
  }

  lemma OutsideDejaVu(w: Rewrite, m: string)
    requires w.strip == "/usr/share/fonts/dejavu/" && StartsWith(m, "/usr/share/fonts/dejavu-")
    ensures !RewriteMatches(w, m)
  {
    assert m[23] == '-';
    assert |w.strip + w.keep| > 23 ==> (w.strip + w.keep)[23] == '/';
  }

  /** A rule whose output the next rule does not match is the last word on the path. */
  lemma ShadowedRule(w1: Rewrite, w2: Rewrite, r: string)
    requires RewriteMatches(w1, r) && !RewriteMatches(w2, ApplyRewrite(w1, r))
    ensures ApplyRewrites([w1, w2], r) == ApplyRewrite(w1, r)
  {
    var r1 := ApplyRewrite(w1, r);
    assert [w1, w2][1..] == [w2];
    assert ApplyRewrites([w1, w2], r) == ApplyRewrites([w2], r1);
    assert [w2][1..] == [];
    assert ApplyRewrites([w2], r1) == ApplyRewrites([], r1);
  }

  // ---------------------------------------------------------------- reading the file list

  /**
   * One line of the `.files` input: trailing white space removed, then
   * `/usr/lib/x86_64-linux-gnu/X` or else `/usr/lib/X` moved to `/usr/lib64/X`.
   */
  function Normalize(line: string): (r: string)
    ensures !StartsWith(r, "/usr/lib/")
    ensures RStrip(r) == r
    ensures StartsWith(RStrip(line), "/usr/lib/x86_64-linux-gnu/") ==> r == "/usr/lib64/" + RStrip(line)[26..]
    ensures StartsWith(RStrip(line), "/usr/lib/") && !StartsWith(RStrip(line), "/usr/lib/x86_64-linux-gnu/")
            ==> r == "/usr/lib64/" + RStrip(line)[9..]
    ensures !StartsWith(RStrip(line), "/usr/lib/") ==> r == RStrip(line)
  {
    var s := RStrip(line);
    if StartsWith(s, "/usr/lib/x86_64-linux-gnu/") then
      assert s[..9] == s[..26][..9];
      Lib64NotLib(s[26..]);
      "/usr/lib64/" + s[26..]
    else if StartsWith(s, "/usr/lib/") then
      Lib64NotLib(s[9..]);
      "/usr/lib64/" + s[9..]
    else s
  }

  /** A path under `/usr/lib64/` is not under `/usr/lib/` and has the input's last character. */
  lemma Lib64NotLib(rest: string)
    requires |rest| > 0 ==> !IsSpace(rest[|rest| - 1])
    ensures !StartsWith("/usr/lib64/" + rest, "/usr/lib/")
    ensures RStrip("/usr/lib64/" + rest) == "/usr/lib64/" + rest
  {
    var r := "/usr/lib64/" + rest;
    assert r[8] == '6';
    LastOfConcat("/usr/lib64/", rest);
    assert !IsSpace('/');
    RStripKept(r);
  }

  /** Normalising twice is normalising once. */
  lemma NormalizeIdempotent(line: string)
    ensures Normalize(Normalize(line)) == Normalize(line)
  {
    var r := Normalize(line);
    if StartsWith(r, "/usr/lib/x86_64-linux-gnu/") {
      assert r[..9] == r[..26][..9];
    }
  }

  function NormalizeAll(lines: seq<string>): (xs: seq<string>)
    ensures |xs| == |lines| && forall i :: 0 <= i < |lines| ==> xs[i] == Normalize(lines[i])
  {
    seq(|lines|, i requires 0 <= i < |lines| => Normalize(lines[i]))
  }

  function Id(s: string): string {
    s
  }

  /** `to_resolve`: the normalised lines in sorted order. */
  function ToResolve(lines: seq<string>): (xs: seq<string>)
    ensures SortedBy(xs, Id, StringLe())
    ensures multiset(xs) == multiset(NormalizeAll(lines))
  {
    StringLeTotal();
    SortBySorted(NormalizeAll(lines), Id, StringLe());
    SortBy(NormalizeAll(lines), Id, StringLe())
  }

  /** The reading loop, then `to_resolve.sort()`. */
  method ReadFileList(lines: seq<string>) returns (toResolve: seq<string>)
    ensures toResolve == ToResolve(lines)
  {
    var acc: seq<string> := [];
    for i := 0 to |lines|
      invariant acc == NormalizeAll(lines[..i])
    {
      acc := acc + [Normalize(lines[i])];
    }
    assert lines[..|lines|] == lines;
    toResolve := SortBy(acc, Id, StringLe());
  }

  // ---------------------------------------------------------------- where to look

  /** The location classes, tried in this order. */
  datatype Location = Lib64Dir | SitePackages | Perl5 | UsrBin | Elsewhere

  function LocationOf(r: string): Location {
    if Dirname(r) == "/usr/lib64" then Lib64Dir
    else if StartsWith(r, "/usr/lib64") && Find(r, "/site-packages/") > 0 then SitePackages
    else if StartsWith(r, "/usr/lib64/perl5") then Perl5
    else if StartsWith(r, "/usr/bin/") then UsrBin
    else Elsewhere
  }

  /** What every search variant of `r` keeps: the file name, or the path below the location's root. */
  function Tail(r: string): string {
    match LocationOf(r)
    case Lib64Dir => Basename(r)
    case SitePackages => Drop(r, 11)
    case Perl5 => Drop(r, 17)
    case UsrBin => Basename(r)
    case Elsewhere => r
  }

  /** The search list: `r` itself first, then the variants of its location class. */
  function SearchList(r: string): (search: seq<string>)
    ensures |search| >= 1 && search[0] == r
  {
    TailIsSuffix(r);
    Variants(LocationOf(r), r, Tail(r))
  }

  /** Every variant names the same file, or the same path below the location's root, elsewhere. */
  lemma SearchListKeepsTail(r: string)
    ensures |SearchList(r)| == VariantCount(LocationOf(r))
    ensures forall k :: 0 <= k < |SearchList(r)| ==> EndsWith(SearchList(r)[k], Tail(r))
  {
    TailIsSuffix(r);
  }

  function VariantCount(loc: Location): nat {
    match loc
    case Lib64Dir => 2
    case SitePackages => 2
    case Perl5 => 4
    case UsrBin => 4
    case Elsewhere => 1
  }

  /** The search list of a path in `loc` whose kept part is `tail`. */
  function Variants(loc: Location, r: string, tail: string): (search: seq<string>)
    requires EndsWith(r, tail)
    ensures |search| == VariantCount(loc) && search[0] == r
    ensures forall k :: 0 <= k < |search| ==> EndsWith(search[k], tail)
  {
    match loc
    case Lib64Dir =>
      AppendEndsWith("/lib64/", tail);
      [r, "/lib64/" + tail]
    case SitePackages =>
      AppendEndsWith("/usr/lib/", tail);
      [r, "/usr/lib/" + tail]
    case Perl5 =>
      AppendEndsWith("/usr/lib64/perl5/vendor_perl/", tail);
      AppendEndsWith("/usr/share/perl5/vendor_perl/", tail);
      AppendEndsWith("/usr/share/perl5/", tail);
      [r, "/usr/lib64/perl5/vendor_perl/" + tail, "/usr/share/perl5/vendor_perl/" + tail, "/usr/share/perl5/" + tail]
    case UsrBin =>
      AppendEndsWith("/bin/", tail);
      AppendEndsWith("/usr/sbin/", tail);
      AppendEndsWith("/sbin/", tail);
      [r, "/bin/" + tail, "/usr/sbin/" + tail, "/sbin/" + tail]
    case Elsewhere => [r]
  }

  lemma TailIsSuffix(r: string)
    ensures EndsWith(r, Tail(r))
  {
    match LocationOf(r)
    case Lib64Dir => SuffixEndsWith(r, RFindChar(r, '/') + 1);
    case UsrBin => SuffixEndsWith(r, RFindChar(r, '/') + 1);
    case SitePackages => if 11 <= |r| { SuffixEndsWith(r, 11); }
    case Perl5 => if 17 <= |r| { SuffixEndsWith(r, 17); }
    case Elsewhere => SuffixEndsWith(r, 0);
  }

  lemma SuffixEndsWith(s: string, k: nat)
    requires k <= |s|
    ensures EndsWith(s, s[k..])
  {
  }

  lemma AppendEndsWith(d: string, t: string)
    ensures EndsWith(d + t, t)
  {
    assert (d + t)[|d|..] == t;
  }

  /** The first variant the files map knows, and the package it names. */
  function FirstHit(filesMap: map<string, string>, search: seq<string>): (p: Option<string>)
    ensures p.Some? <==> exists k :: 0 <= k < |search| && search[k] in filesMap
    ensures p.Some? ==> exists k :: 0 <= k < |search| && search[k] in filesMap && p.value == filesMap[search[k]]
                                   && forall j :: 0 <= j < k ==> search[j] !in filesMap
    decreases |search|
  {
    if |search| == 0 then None
    else if search[0] in filesMap then Some(filesMap[search[0]])
    else
      var p := FirstHit(filesMap, search[1..]);
      assert forall k :: 1 <= k < |search| ==> search[k] == search[1..][k - 1];
      p
  }

  /** The `for s in search: ... break` loop, with its `else: providing = None`. */
  method FindProvider(filesMap: map<string, string>, search: seq<string>) returns (providing: Option<string>)
    ensures providing == FirstHit(filesMap, search)
  {
    providing := None;
    var i := 0;
    while i < |search|
      invariant 0 <= i <= |search|
      invariant FirstHit(filesMap, search) == FirstHit(filesMap, search[i..])
    {
      assert search[i..][1..] == search[i + 1..];
      if search[i] in filesMap {
        providing := Some(filesMap[search[i]]);
        return;
      }
      i := i + 1;
    }
  }

  // ---------------------------------------------------------------- one path

  /** What one input path comes to. */
  datatype Outcome =
    | Skipped                                 // ignored, or its provider is filtered out
    | Llvm                                    // a split LLVM library: `llvm-libs`, no line
    | Unmatched(path: string)                 // a line in `.unmatched`
    | Matched(path: string, provider: string) // a line in `.matched`

  /** The tables, the package filters and whether the runtime is a Platform. */
  datatype Config = Config(
    rules: Rules,
    globalPackageIgnore: seq<Pattern>,
    platformPackageIgnore: seq<Pattern>,
    isPlatform: bool)

  /** A provider dropped by a global pattern, or by a Platform pattern for a Platform. */
  predicate PackageIgnored(cfg: Config, p: string) {
    AnyMatch(cfg.globalPackageIgnore, p) || (cfg.isPlatform && AnyMatch(cfg.platformPackageIgnore, p))
  }

  /** One iteration of the resolution loop. */
  function ResolveOne(cfg: Config, filesMap: map<string, string>, r0: string): Outcome {
    if Ignored(cfg.rules, r0) then Skipped
    else
      var r := Renamed(cfg.rules, r0);
      if StartsWith(r, "/usr/lib64/libLLVM") then Llvm
      else Classify(cfg, r, FirstHit(filesMap, SearchList(r)))
  }

  /** What the lookup's result comes to for the renamed path `r`. */
  function Classify(cfg: Config, r: string, providing: Option<string>): Outcome {
    match providing
    case None => Unmatched(r)
    case Some(p) => if PackageIgnored(cfg, p) then Skipped else Matched(r, p)
  }

  function Resolution(cfg: Config, filesMap: map<string, string>): (f: string -> Outcome)
    ensures forall r :: f(r) == ResolveOne(cfg, filesMap, r)
  {
    r => ResolveOne(cfg, filesMap, r)
  }

  /** A path is unmatched exactly when it survives the tables and no variant of its new name is known. */
  lemma UnmatchedIff(cfg: Config, filesMap: map<string, string>, r0: string, line: string)
    ensures ResolveOne(cfg, filesMap, r0) == Unmatched(line)
            <==> !Ignored(cfg.rules, r0) && line == Renamed(cfg.rules, r0)
                 && !StartsWith(line, "/usr/lib64/libLLVM")
                 && forall k :: 0 <= k < |SearchList(line)| ==> SearchList(line)[k] !in filesMap
  {
  }

  /** A path is matched to the first known variant's package, unless a package filter drops it. */
  lemma MatchedIff(cfg: Config, filesMap: map<string, string>, r0: string, line: string, p: string)
    ensures ResolveOne(cfg, filesMap, r0) == Matched(line, p)
            <==> !Ignored(cfg.rules, r0) && line == Renamed(cfg.rules, r0)
                 && !StartsWith(line, "/usr/lib64/libLLVM")
                 && FirstHit(filesMap, SearchList(line)) == Some(p) && !PackageIgnored(cfg, p)
  {
  }

  // ---------------------------------------------------------------- the outputs

  /** `.matched` and `.unmatched` lines, `found_packages` and `unmatched_count`. */
  datatype Report = Report(matched: seq<string>, unmatched: seq<string>, found: set<string>, unmatchedCount: int)

  const Empty := Report([], [], {}, 0)

  /** `"{}: {}".format(r, providing)`. */
  function MatchedLine(r: string, p: string): string {
    r + ": " + p
  }

  function Record(rep: Report, o: Outcome): Report {
    match o
    case Skipped => rep
    case Llvm => rep.(found := rep.found + {"llvm-libs"})
    case Unmatched(r) => rep.(unmatched := rep.unmatched + [r], unmatchedCount := rep.unmatchedCount + 1)
    case Matched(r, p) => rep.(matched := rep.matched + [MatchedLine(r, p)], found := rep.found + {p})
  }

  /** The outputs after running over `xs`, in order, starting from `rep`. */
  function ResolveFrom(rep: Report, resolve: string -> Outcome, xs: seq<string>): Report
    decreases |xs|
  {
    if |xs| == 0 then rep else ResolveFrom(Record(rep, resolve(xs[0])), resolve, xs[1..])
  }

  lemma {:induction false} ResolveFromAppend(rep: Report, resolve: string -> Outcome, xs: seq<string>, ys: seq<string>)
    ensures ResolveFrom(rep, resolve, xs + ys) == ResolveFrom(ResolveFrom(rep, resolve, xs), resolve, ys)
    decreases |xs|
  {
    if |xs| == 0 {
      assert xs + ys == ys;
    } else {
      assert (xs + ys)[1..] == xs[1..] + ys;
      ResolveFromAppend(Record(rep, resolve(xs[0])), resolve, xs[1..], ys);
    }
  }

  lemma ResolveFromSnoc(rep: Report, resolve: string -> Outcome, xs: seq<string>, x: string)
    ensures ResolveFrom(rep, resolve, xs + [x]) == Record(ResolveFrom(rep, resolve, xs), resolve(x))
  {
    ResolveFromAppend(rep, resolve, xs, [x]);
    var mid := ResolveFrom(rep, resolve, xs);
    assert ResolveFrom(mid, resolve, [x]) == ResolveFrom(Record(mid, resolve(x)), resolve, []);
  }

  /** One more path of a loop over `xs`: the outputs so far, recorded with its outcome. */
  lemma ResolvePrefixStep(resolve: string -> Outcome, xs: seq<string>, i: nat)
    requires i < |xs|
    ensures ResolveFrom(Empty, resolve, xs[..i + 1]) == Record(ResolveFrom(Empty, resolve, xs[..i]), resolve(xs[i]))
  {
    assert xs[..i + 1] == xs[..i] + [xs[i]];
    ResolveFromSnoc(Empty, resolve, xs[..i], xs[i]);
  }

  /** Recording keeps `unmatched_count` equal to the number of unmatched lines. */
  lemma RecordCounts(rep: Report, o: Outcome)
    requires rep.unmatchedCount == |rep.unmatched|
    ensures Record(rep, o).unmatchedCount == |Record(rep, o).unmatched|
  {
  }

  /** A skipped path changes no output and no counter, wherever it is. */
  lemma SkippedInvisible(rep: Report, resolve: string -> Outcome, xs: seq<string>, r: string, ys: seq<string>)
    requires resolve(r) == Skipped
    ensures ResolveFrom(rep, resolve, xs + [r] + ys) == ResolveFrom(rep, resolve, xs + ys)
  {
    ResolveFromAppend(rep, resolve, xs + [r], ys);
    ResolveFromAppend(rep, resolve, xs, [r]);
    ResolveFromAppend(rep, resolve, xs, ys);
    assert ResolveFrom(ResolveFrom(rep, resolve, xs), resolve, [r]) == ResolveFrom(rep, resolve, xs);
  }

  /** An ignored path, exactly or by pattern, appears in no output and changes no counter. */
  lemma IgnoredInvisible(cfg: Config, filesMap: map<string, string>, xs: seq<string>, r: string, ys: seq<string>)
    requires Ignored(cfg.rules, r)
    ensures var f := Resolution(cfg, filesMap);
            ResolveFrom(Empty, f, xs + [r] + ys) == ResolveFrom(Empty, f, xs + ys)
  {
    SkippedInvisible(Empty, Resolution(cfg, filesMap), xs, r, ys);
  }

  /** The unmatched paths of `xs`, in input order: an independent filter. */
  function UnmatchedPaths(resolve: string -> Outcome, xs: seq<string>): seq<string>
    decreases |xs|
  {
    if |xs| == 0 then []
    else (if resolve(xs[0]).Unmatched? then [resolve(xs[0]).path] else []) + UnmatchedPaths(resolve, xs[1..])
  }

  /** The `.matched` lines of `xs`, in input order. */
  function MatchedLines(resolve: string -> Outcome, xs: seq<string>): seq<string>
    decreases |xs|
  {
    if |xs| == 0 then []
    else
      var o := resolve(xs[0]);
      (if o.Matched? then [MatchedLine(o.path, o.provider)] else []) + MatchedLines(resolve, xs[1..])
  }

  /**
   * Each unmatched path is written once, in input order, and counted once; each matched
   * path gives one line, in input order.
   */
  lemma {:induction false} LinesInOrder(rep: Report, resolve: string -> Outcome, xs: seq<string>)
    ensures ResolveFrom(rep, resolve, xs).unmatched == rep.unmatched + UnmatchedPaths(resolve, xs)
    ensures ResolveFrom(rep, resolve, xs).unmatchedCount == rep.unmatchedCount + |UnmatchedPaths(resolve, xs)|
    ensures ResolveFrom(rep, resolve, xs).matched == rep.matched + MatchedLines(resolve, xs)
    decreases |xs|
  {
    if |xs| > 0 {
      var rep' := Record(rep, resolve(xs[0]));
      LinesInOrder(rep', resolve, xs[1..]);
      assert rep.unmatched + UnmatchedPaths(resolve, xs)
          == rep.unmatched + (if resolve(xs[0]).Unmatched? then [resolve(xs[0]).path] else []) + UnmatchedPaths(resolve, xs[1..]);
      var o := resolve(xs[0]);
      assert rep.matched + MatchedLines(resolve, xs)
          == rep.matched + (if o.Matched? then [MatchedLine(o.path, o.provider)] else []) + MatchedLines(resolve, xs[1..]);
    } else {
      assert rep.unmatched + [] == rep.unmatched;
      assert rep.matched + [] == rep.matched;
    }
  }

  /** The outcome puts `p` into `found_packages`. */
  predicate Provides(o: Outcome, p: string) {
    (o.Matched? && o.provider == p) || (o.Llvm? && p == "llvm-libs")
  }

  /** A package is found exactly when some path is matched to it, or it is `llvm-libs` and some path is a split LLVM library. */
  lemma {:induction false} FoundIff(rep: Report, resolve: string -> Outcome, xs: seq<string>, p: string)
    ensures p in ResolveFrom(rep, resolve, xs).found
            <==> p in rep.found || exists i :: 0 <= i < |xs| && Provides(resolve(xs[i]), p)
    decreases |xs|
  {
    if |xs| > 0 {
      FoundIff(Record(rep, resolve(xs[0])), resolve, xs[1..], p);
      assert forall i :: 1 <= i < |xs| ==> xs[i] == xs[1..][i - 1];
      if exists i :: 0 <= i < |xs| && Provides(resolve(xs[i]), p) {
        var i :| 0 <= i < |xs| && Provides(resolve(xs[i]), p);
        if i > 0 {
          assert Provides(resolve(xs[1..][i - 1]), p);
        }
      }
    }
  }

  /** A provider the package filters drop never reaches `.packages` (unless it is `llvm-libs`). */
  lemma FilteredNeverFound(cfg: Config, filesMap: map<string, string>, xs: seq<string>, p: string)
    requires PackageIgnored(cfg, p) && p != "llvm-libs"
    ensures p !in ResolveFrom(Empty, Resolution(cfg, filesMap), xs).found
  {
    FoundIff(Empty, Resolution(cfg, filesMap), xs, p);
  }

  /** One iteration of the loop body, `continue` being an early return. */
  method ResolvePath(cfg: Config, filesMap: map<string, string>, r0: string, rep: Report) returns (rep': Report)
    ensures rep' == Record(rep, ResolveOne(cfg, filesMap, r0))
  {
    rep' := rep;
    var r := r0;
    if r in cfg.rules.ignore {
      assert ResolveOne(cfg, filesMap, r0) == Skipped;
      return;
    }
    var skip := MatchesAny(cfg.rules.ignorePatterns, r);
    if skip {
      assert ResolveOne(cfg, filesMap, r0) == Skipped;
      return;
    }
    assert !Ignored(cfg.rules, r0);
    if r in cfg.rules.rename {
      r := cfg.rules.rename[r];
    }
    r := RewriteAll(cfg.rules.renamePatterns, r);
    assert r == Renamed(cfg.rules, r0);
    var search := SearchList(r);
    if StartsWith(r, "/usr/lib64/libLLVM") {
      assert ResolveOne(cfg, filesMap, r0) == Llvm;
      rep' := rep'.(found := rep'.found + {"llvm-libs"});
      return;
    }
    var providing := FindProvider(filesMap, search);
    assert ResolveOne(cfg, filesMap, r0) == Classify(cfg, r, providing);
    rep' := WriteResult(cfg, r, providing, rep);
  }

  /** The tail of the loop body: write the unmatched path, or filter and write the provider. */
  method WriteResult(cfg: Config, r: string, providing: Option<string>, rep: Report) returns (rep': Report)
    ensures rep' == Record(rep, Classify(cfg, r, providing))
  {
    rep' := rep;
    if providing.None? {
      rep' := rep'.(unmatched := rep'.unmatched + [r], unmatchedCount := rep'.unmatchedCount + 1);
    } else {
      var p := providing.value;
      var global := MatchesAny(cfg.globalPackageIgnore, p);
      if global {
        return;
      }
      if cfg.isPlatform {
        var platform := MatchesAny(cfg.platformPackageIgnore, p);
        if platform {
          return;
        }
      }
      rep' := rep'.(found := rep'.found + {p}, matched := rep'.matched + [MatchedLine(r, p)]);
    }
  }

  /** The resolution loop over the sorted paths. */
  method ResolveLoop(cfg: Config, filesMap: map<string, string>, toResolve: seq<string>)
    returns (matched: seq<string>, unmatched: seq<string>, found: set<string>, unmatchedCount: int)
    ensures Report(matched, unmatched, found, unmatchedCount) == ResolveFrom(Empty, Resolution(cfg, filesMap), toResolve)
    ensures unmatchedCount == |unmatched|
  {
    var f := Resolution(cfg, filesMap);
    var rep := Empty;
    for i := 0 to |toResolve|
      invariant rep == ResolveFrom(Empty, f, toResolve[..i])
      invariant rep.unmatchedCount == |rep.unmatched|
    {
      ResolvePrefixStep(f, toResolve, i);
      RecordCounts(rep, f(toResolve[i]));
      rep := ResolvePath(cfg, filesMap, toResolve[i], rep);
    }
    assert toResolve[..|toResolve|] == toResolve;
    matched, unmatched, found, unmatchedCount := rep.matched, rep.unmatched, rep.found, rep.unmatchedCount;
  }

  /**
   * The whole script for one `.files` input whose lines are `lines`: the three output files,
   * `.packages` being the found packages sorted and without duplicates.
   */
  method ResolveFiles(cfg: Config, lines: seq<string>, filesMap: map<string, string>)
    returns (matched: seq<string>, unmatched: seq<string>, packages: seq<string>, unmatchedCount: int)
    ensures var rep := ResolveFrom(Empty, Resolution(cfg, filesMap), ToResolve(lines));
            && matched == rep.matched && unmatched == rep.unmatched && unmatchedCount == rep.unmatchedCount
            && StrictlyIncreasing(packages) && (forall p :: p in packages <==> p in rep.found)
    ensures unmatchedCount == |unmatched|
  {
    var toResolve := ReadFileList(lines);
    var found;
    matched, unmatched, found, unmatchedCount := ResolveLoop(cfg, filesMap, toResolve);
    packages := SortedSet(found);
  }

  // ---------------------------------------------------------------------------------------
  // `get_files_map`

  /** Every name `tools/util.py` binds at module level: its imports, constants, classes and functions. */
  const UtilNames: set<string> := {
    "dataclass", "gzip", "hashlib", "Path", "pickle", "rpm", "os", "subprocess", "sys", "ET", "xml",
    "RELEASE", "ID_PREFIX", "TAG", "TAG_ARG", "BASEONLY", "XDG_CACHE_HOME", "ARCH_SPECIFIC_PACKAGES",
    "_log_name", "set_log_name", "warn", "error", "start", "done", "package_cmp", "RepoInfo",
    "FilesMapHandler", "foreach_file", "PackageMapHandler", "foreach_package", "get_repo_cacheable"
  }

  /** `util.<name>`: a name the module does not bind is an `AttributeError`. */
  function UtilAttribute(name: string): (r: Result<()>)
    ensures r.Ok? <==> name in UtilNames
    ensures r.Err? ==> r.error == AttributeError
  {
    if name in UtilNames then Ok(()) else Err(AttributeError)
  }

  /**
   * `get_repo_cacheable('files-map', make_files_map)`, given the file `out/files-map.gz` as
   * `before` and the hash of `repomd.xml` as `repoHash`: the result, and the file left
   * behind. A hit returns the stored map and a damaged pickle raises; a miss builds the map
   * from the filelists and stores it, unless the handler's `KeyError` ends the run first.
   */
  function CachedFilesMap(before: Option<Repo.CacheFile<map<string, string>>>, repoHash: string,
                          events: seq<FM.Event>, labelCompare: (Ranking.Evr, Ranking.Evr) -> int)
    : (r: (Result<map<string, string>>, Option<Repo.CacheFile<map<string, string>>>))
    ensures var found := Repo.LookupCache(before, repoHash);
      (found.Hit? ==> r == (Ok(found.data), before)) &&
      (found.Corrupt? ==> r == (Err(UnpicklingError), before)) &&
      (found.Miss? && !FM.Run(FM.Initial, events).ok ==> r == (Err(KeyError), before)) &&
      (found.Miss? && FM.Run(FM.Initial, events).ok ==>
        var built := FM.FilesMapOf(events, labelCompare);
        r == (Ok(built), Some(Repo.CacheFile(repoHash, Some(built)))))
  {
    match Repo.LookupCache(before, repoHash)
    case Hit(data) => (Ok(data), before)
    case Corrupt => (Err(UnpicklingError), before)
    case Miss =>
      if !FM.Run(FM.Initial, events).ok then (Err(KeyError), before)
      else
        var built := FM.FilesMapOf(events, labelCompare);
        (Ok(built), Some(Repo.CacheFile(repoHash, Some(built))))
  }

  /**
   * Once a call has succeeded, the next one with the same hash reads the same map back and
   * leaves the file alone, whatever the filelists and the comparison are by then.
   */
  lemma CachedFilesMapSettles(before: Option<Repo.CacheFile<map<string, string>>>, repoHash: string,
                              events: seq<FM.Event>, labelCompare: (Ranking.Evr, Ranking.Evr) -> int,
                              events': seq<FM.Event>, labelCompare': (Ranking.Evr, Ranking.Evr) -> int)
    requires CachedFilesMap(before, repoHash, events, labelCompare).0.Ok?
    ensures var (r, after) := CachedFilesMap(before, repoHash, events, labelCompare);
      CachedFilesMap(after, repoHash, events', labelCompare') == (r, after)
  {
  }

  /**
   * `get_files_map` as written: `util.get_repo_map` is looked up first; were it there, it
   * would be the cache helper above.
   */
  function GetFilesMapAsWritten(before: Option<Repo.CacheFile<map<string, string>>>, repoHash: string,
                                events: seq<FM.Event>, labelCompare: (Ranking.Evr, Ranking.Evr) -> int)
    : Result<map<string, string>>
  {
    match UtilAttribute("get_repo_map")
    case Err(e) => Err(e)
    case Ok(_) => CachedFilesMap(before, repoHash, events, labelCompare).0
  }

  /** `tools/util.py` binds no `get_repo_map`, so every run ends in `AttributeError` before any path is resolved. */
  lemma GetFilesMapRaises(before: Option<Repo.CacheFile<map<string, string>>>, repoHash: string,
                          events: seq<FM.Event>, labelCompare: (Ranking.Evr, Ranking.Evr) -> int)
    ensures GetFilesMapAsWritten(before, repoHash, events, labelCompare) == Err(AttributeError)
  {
  }
}
