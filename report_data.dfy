/**
 * The package bookkeeping that both report generators share: `nvr_to_name`, the `Package`
 * record with one level per profile, `add_package`, `add_packages` with its `required_by`
 * lists, `add_package_files`, the `why` text and the source-package classification.
 * The two scripts carry identical copies of these; where they differ (the sorted
 * `required_by` list) the difference is a parameter.
 */
module ReportData {
  import opened Wrappers
  import opened Strings
  import opened Sorting

  /** The six profiles a package is recorded against, one attribute group each. */
  datatype Profile = FreedesktopPlatform | FreedesktopSdk | GnomePlatform | GnomeSdk | Live | Rf26

  /** The four runtimes, the profiles that have `_files` and `_required_by` attributes. */
  predicate IsRuntime(w: Profile) {
    !w.Live? && !w.Rf26?
  }

  /** The number of hyphens in `s`. */
  function Hyphens(s: string): nat {
    multiset(s)['-']
  }

  lemma HyphensAround(s: string, k: nat)
    requires k < |s|
    ensures Hyphens(s) == Hyphens(s[..k]) + (if s[k] == '-' then 1 else 0) + Hyphens(s[k + 1..])
  {
    assert s == s[..k] + [s[k]] + s[k + 1..];
  }

  lemma NoHyphens(s: string)
    requires '-' !in s
    ensures Hyphens(s) == 0
  {
  }

  /**
   * `nvr_to_name`: `re.match('^(.*)-[^-]*-[^-]*', nvr).group(1)`. The greedy group stops at
   * the second-to-last hyphen; with fewer than two hyphens there is no match, and `.group`
   * on `None` raises.
   */
  function NvrToName(nvr: string): (r: Result<string>)
    ensures r.Ok? <==> Hyphens(nvr) >= 2
    ensures r.Ok? ==> |r.value| < |nvr| && nvr[..|r.value|] == r.value && nvr[|r.value|] == '-'
    ensures r.Ok? ==> Hyphens(nvr[|r.value| + 1..]) == 1
    ensures r.Err? ==> r.error == AttributeError
  {
    var last := RFindChar(nvr, '-');
    if last < 0 then
      NoHyphens(nvr);
      Err(AttributeError)
    else
      var prev := RFindChar(nvr[..last], '-');
      NvrHyphens(nvr, last, prev);
      if prev < 0 then Err(AttributeError) else Ok(nvr[..prev])
  }

  /** Counting the hyphens around the last one and the one before it. */
  lemma NvrHyphens(nvr: string, last: nat, prev: int)
    requires last < |nvr| && nvr[last] == '-' && '-' !in nvr[last + 1..]
    requires prev == RFindChar(nvr[..last], '-')
    ensures prev < 0 ==> Hyphens(nvr) == 1
    ensures prev >= 0 ==> Hyphens(nvr) >= 2 && Hyphens(nvr[prev + 1..]) == 1
  {
    var head := nvr[..last];
    HyphensAround(nvr, last);
    NoHyphens(nvr[last + 1..]);
    if prev < 0 {
      NoHyphens(head);
    } else {
      var mid := head[prev + 1..];
      NoHyphens(mid);
      assert nvr[prev + 1..] == mid + [nvr[last]] + nvr[last + 1..];
      HyphensAround(head, prev);
      assert head[..prev] == nvr[..prev];
    }
  }

  lemma RFindCharAt(s: string, c: char, i: nat)
    requires i < |s| && s[i] == c && c !in s[i + 1..]
    ensures RFindChar(s, c) == i
  {
  }

  /** The name of `name-version-release` comes back when version and release hold no hyphen. */
  lemma NvrRoundTrip(name: string, version: string, release: string)
    requires '-' !in version && '-' !in release
    ensures NvrToName(name + "-" + version + "-" + release) == Ok(name)
  {
    var nvr := name + "-" + version + "-" + release;
    var last := |name| + 1 + |version|;
    assert nvr[last + 1..] == release;
    RFindCharAt(nvr, '-', last);
    var head := nvr[..last];
    assert head == name + "-" + version;
    assert head[|name| + 1..] == version;
    RFindCharAt(head, '-', |name|);
    assert nvr[..|name|] == name;
  }

  /**
   * A package of the report. Absent keys stand for the attributes' initial values: level 0,
   * and `None` for the file and `required_by` lists.
   */
  datatype Package = Package(
    name: string,
    levels: map<Profile, nat>,
    files: map<Profile, seq<string>>,
    requiredBy: map<Profile, seq<(string, string)>>,
    sourcePackage: Option<string>,
    flag: Option<string>,
    note: Option<string>)

  /** `Package(name)`. */
  function NewPackage(name: string): Package {
    Package(name, map[], map[], map[], None, None, None)
  }

  /** `getattr(pkg, which)`. */
  function Level(p: Package, w: Profile): nat {
    if w in p.levels then p.levels[w] else 0
  }

  /** `getattr(pkg, which + '_files')` for a runtime. */
  function Files(p: Package, w: Profile): Option<seq<string>> {
    if w in p.files then Some(p.files[w]) else None
  }

  /** `getattr(pkg, which + '_required_by')` for a runtime. */
  function RequiredBy(p: Package, w: Profile): Option<seq<(string, string)>> {
    if w in p.requiredBy then Some(p.requiredBy[w]) else None
  }

  /** Every package is stored under its own name. */
  predicate WellKeyed(m: map<string, Package>) {
    forall n :: n in m ==> m[n].name == n
  }

  /** The package `add_package` works on: the stored one, or a fresh one. */
  function Existing(m: map<string, Package>, name: string): Package {
    if name in m then m[name] else NewPackage(name)
  }

  function Max(a: nat, b: nat): nat {
    if a < b then b else a
  }

  /**
   * `add_package`: with `only_if_exists` an unknown name is left out; otherwise the package
   * is created if needed, its level for the profile is raised to `level` if it is lower, and
   * its source package is overwritten only when one is given.
   */
  function AddPackageTo(m: map<string, Package>, name: string, w: Profile, level: nat,
                        onlyIfExists: bool, source: Option<string>): (r: map<string, Package>)
    ensures name !in m && onlyIfExists ==> r == m
    ensures name in m || !onlyIfExists ==> r.Keys == m.Keys + {name}
    ensures name in r ==>
      var p, q := Existing(m, name), r[name];
      Level(q, w) == Max(Level(p, w), level) &&
      (forall v :: v != w ==> Level(q, v) == Level(p, v)) &&
      q.sourcePackage == (if source.Some? then source else p.sourcePackage) &&
      q.name == p.name && q.files == p.files && q.requiredBy == p.requiredBy &&
      q.flag == p.flag && q.note == p.note
    ensures forall n :: n in m && n != name ==> n in r && r[n] == m[n]
    ensures WellKeyed(m) ==> WellKeyed(r)
  {
    if name !in m && onlyIfExists then m
    else
      var p := Existing(m, name);
      var raised := if Level(p, w) < level then p.(levels := p.levels[w := level]) else p;
      m[name := if source.Some? then raised.(sourcePackage := source) else raised]
  }

  /** A level never goes down: each profile's level after a call is at least the one before. */
  lemma AddPackageMonotone(m: map<string, Package>, name: string, w: Profile, level: nat,
                           onlyIfExists: bool, source: Option<string>, n: string, v: Profile)
    requires n in m
    ensures n in AddPackageTo(m, name, w, level, onlyIfExists, source)
    ensures Level(AddPackageTo(m, name, w, level, onlyIfExists, source)[n], v) >= Level(m[n], v)
  {
  }

  /** The loop `for package in pkgs: add_package(package, which, level=2, only_if_exists=...)`. */
  function AddNames(m: map<string, Package>, names: seq<string>, w: Profile, onlyIfExists: bool): map<string, Package>
    decreases |names|
  {
    if |names| == 0 then m
    else AddNames(AddPackageTo(m, names[0], w, 2, onlyIfExists, None), names[1..], w, onlyIfExists)
  }

  /**
   * After the plain loop, every listed name that could be stored sits at level 2 or more for
   * the profile, and every package stored before is still there.
   */
  lemma {:induction false} AddNamesRoots(m: map<string, Package>, names: seq<string>, w: Profile, onlyIfExists: bool)
    ensures var r := AddNames(m, names, w, onlyIfExists);
      m.Keys <= r.Keys &&
      forall k :: 0 <= k < |names| && (names[k] in m || !onlyIfExists) ==> names[k] in r && Level(r[names[k]], w) >= 2
    decreases |names|
  {
    if |names| > 0 {
      var m1 := AddPackageTo(m, names[0], w, 2, onlyIfExists, None);
      AddNamesRoots(m1, names[1..], w, onlyIfExists);
      var r := AddNames(m1, names[1..], w, onlyIfExists);
      forall k | 0 <= k < |names| && (names[k] in m || !onlyIfExists)
        ensures names[k] in r && Level(r[names[k]], w) >= 2
      {
        if k == 0 {
          AddNamesMonotone(m1, names[1..], w, onlyIfExists, names[0]);
        } else {
          assert names[k] == names[1..][k - 1];
        }
      }
    }
  }

  /** Levels never go down across the plain loop. */
  lemma {:induction false} AddNamesMonotone(m: map<string, Package>, names: seq<string>, w: Profile, onlyIfExists: bool, n: string)
    requires n in m
    ensures n in AddNames(m, names, w, onlyIfExists)
    ensures forall v :: Level(AddNames(m, names, w, onlyIfExists)[n], v) >= Level(m[n], v)
    decreases |names|
  {
    if |names| > 0 {
      var m1 := AddPackageTo(m, names[0], w, 2, onlyIfExists, None);
      forall v ensures Level(m1[n], v) >= Level(m[n], v) {
        AddPackageMonotone(m, names[0], w, 2, onlyIfExists, None, n, v);
      }
      AddNamesMonotone(m1, names[1..], w, onlyIfExists, n);
    }
  }

  /** With `only_if_exists` no entry is ever created: the live and rf26 lists only mark packages. */
  lemma {:induction false} OnlyIfExistsCreatesNothing(m: map<string, Package>, names: seq<string>, w: Profile)
    ensures AddNames(m, names, w, true).Keys == m.Keys
    decreases |names|
  {
    if |names| > 0 {
      OnlyIfExistsCreatesNothing(AddPackageTo(m, names[0], w, 2, true, None), names[1..], w);
    }
  }

  /** One record of the `resolve-deps --json` output. */
  datatype Resolved = Resolved(rpm: string, srpm: string, reqs: seq<(string, seq<string>)>)

  /**
   * The first resolved-package loop: each binary package is added at level 2 when it was
   * asked for and at level 1 when it was only pulled in, with its source package's name.
   */
  function AddResolved(m: map<string, Package>, rs: seq<Resolved>, w: Profile, asked: seq<string>, onlyIfExists: bool): Result<map<string, Package>>
    decreases |rs|
  {
    if |rs| == 0 then Ok(m)
    else
      match NvrToName(rs[0].rpm)
      case Err(e) => Err(e)
      case Ok(name) =>
        match NvrToName(rs[0].srpm)
        case Err(e) => Err(e)
        case Ok(srpm) =>
          var level := if name in asked then 2 else 1;
          AddResolved(AddPackageTo(m, name, w, level, onlyIfExists, Some(srpm)), rs[1..], w, asked, onlyIfExists)
  }

  /** Every resolved package ends up stored with at least level 1, and levels never drop. */
  lemma {:induction false} AddResolvedMonotone(m: map<string, Package>, rs: seq<Resolved>, w: Profile, asked: seq<string>, onlyIfExists: bool)
    requires AddResolved(m, rs, w, asked, onlyIfExists).Ok?
    ensures var r := AddResolved(m, rs, w, asked, onlyIfExists).value;
      forall n :: n in m ==> n in r && forall v :: Level(r[n], v) >= Level(m[n], v)
    decreases |rs|
  {
    if |rs| > 0 {
      var name := NvrToName(rs[0].rpm).value;
      var srpm := NvrToName(rs[0].srpm).value;
      var level := if name in asked then 2 else 1;
      var m1 := AddPackageTo(m, name, w, level, onlyIfExists, Some(srpm));
      AddResolvedMonotone(m1, rs[1..], w, asked, onlyIfExists);
      forall n, v | n in m ensures Level(m1[n], v) >= Level(m[n], v) {
        AddPackageMonotone(m, name, w, level, onlyIfExists, Some(srpm), n, v);
      }
    }
  }

  /** `required_by.append(entry)`, creating the list first when it is `None`. */
  function AppendRequiredBy(p: Package, w: Profile, entry: (string, string)): Package {
    var list := if w in p.requiredBy then p.requiredBy[w] else [];
    p.(requiredBy := p.requiredBy[w := list + [entry]])
  }

  /**
   * One `(req, providers)` item of a resolved package: the first provider's name is looked
   * up; a provider that is not stored is skipped; otherwise `(requiring package, req)` is
   * appended to its list for the profile.
   */
  function RequireStep(m: map<string, Package>, w: Profile, rpm: string, req: string, providers: seq<string>): (r: Result<map<string, Package>>)
    ensures |providers| == 0 ==> r == Err(IndexError)
    ensures |providers| > 0 && NvrToName(providers[0]).Ok? && NvrToName(providers[0]).value !in m ==> r == Ok(m)
    ensures r.Ok? ==> r.value.Keys == m.Keys && forall n :: n in m ==> r.value[n].levels == m[n].levels
    ensures r.Ok? && |providers| > 0 && NvrToName(providers[0]).Ok? && NvrToName(providers[0]).value in m ==>
      var provider := NvrToName(providers[0]).value;
      NvrToName(rpm).Ok? &&
      RequiredBy(r.value[provider], w) == Some(RequiredBy(m[provider], w).GetOr([]) + [(NvrToName(rpm).value, req)]) &&
      forall n :: n in m && n != provider ==> r.value[n] == m[n]
  {
    if |providers| == 0 then Err(IndexError)
    else
      match NvrToName(providers[0])
      case Err(e) => Err(e)
      case Ok(provider) =>
        if provider !in m then Ok(m)
        else if !IsRuntime(w) then Err(AttributeError)
        else
          match NvrToName(rpm)
          case Err(e) => Err(e)
          case Ok(name) => Ok(m[provider := AppendRequiredBy(m[provider], w, (name, req))])
  }

  /** The inner loop over one package's `requires` items. */
  function AddRequires(m: map<string, Package>, w: Profile, rpm: string, reqs: seq<(string, seq<string>)>): Result<map<string, Package>>
    decreases |reqs|
  {
    if |reqs| == 0 then Ok(m)
    else
      match RequireStep(m, w, rpm, reqs[0].0, reqs[0].1)
      case Err(e) => Err(e)
      case Ok(m1) => AddRequires(m1, w, rpm, reqs[1..])
  }

  /** The second resolved-package loop. */
  function RecordRequiredBy(m: map<string, Package>, w: Profile, rs: seq<Resolved>): Result<map<string, Package>>
    decreases |rs|
  {
    if |rs| == 0 then Ok(m)
    else
      match AddRequires(m, w, rs[0].rpm, rs[0].reqs)
      case Err(e) => Err(e)
      case Ok(m1) => RecordRequiredBy(m1, w, rs[1..])
  }

  /** Recording `required_by` lists neither adds packages nor changes any level. */
  lemma {:induction false} AddRequiresKeepsLevels(m: map<string, Package>, w: Profile, rpm: string, reqs: seq<(string, seq<string>)>)
    requires AddRequires(m, w, rpm, reqs).Ok?
    ensures var r := AddRequires(m, w, rpm, reqs).value;
      r.Keys == m.Keys && forall n :: n in m ==> r[n].levels == m[n].levels
    decreases |reqs|
  {
    if |reqs| > 0 {
      AddRequiresKeepsLevels(RequireStep(m, w, rpm, reqs[0].0, reqs[0].1).value, w, rpm, reqs[1..]);
    }
  }

  lemma {:induction false} RequiredByKeepsLevels(m: map<string, Package>, w: Profile, rs: seq<Resolved>)
    requires RecordRequiredBy(m, w, rs).Ok?
    ensures var r := RecordRequiredBy(m, w, rs).value;
      r.Keys == m.Keys && forall n :: n in m ==> r[n].levels == m[n].levels
    decreases |rs|
  {
    if |rs| > 0 {
      AddRequiresKeepsLevels(m, w, rs[0].rpm, rs[0].reqs);
      RequiredByKeepsLevels(AddRequires(m, w, rs[0].rpm, rs[0].reqs).value, w, rs[1..]);
    }
  }

  /** `add_packages(source, which, resolve_deps, only_if_exists)` on the package table `m`. */
  function AddPackagesTo(m: map<string, Package>, w: Profile, names: seq<string>, resolveDeps: bool,
                         onlyIfExists: bool, rs: seq<Resolved>): Result<map<string, Package>>
  {
    if resolveDeps then
      match AddResolved(m, rs, w, names, onlyIfExists)
      case Err(e) => Err(e)
      case Ok(m1) => RecordRequiredBy(m1, w, rs)
    else Ok(AddNames(m, names, w, onlyIfExists))
  }

  /** Whatever the source, `add_packages` never lowers a level or forgets a package. */
  lemma AddPackagesMonotone(m: map<string, Package>, w: Profile, names: seq<string>, resolveDeps: bool,
                            onlyIfExists: bool, rs: seq<Resolved>, n: string, v: Profile)
    requires AddPackagesTo(m, w, names, resolveDeps, onlyIfExists, rs).Ok? && n in m
    ensures var r := AddPackagesTo(m, w, names, resolveDeps, onlyIfExists, rs).value;
      n in r && Level(r[n], v) >= Level(m[n], v)
  {
    if resolveDeps {
      AddResolvedMonotone(m, rs, w, names, onlyIfExists);
      RequiredByKeepsLevels(AddResolved(m, rs, w, names, onlyIfExists).value, w, rs);
    } else {
      AddNamesMonotone(m, names, w, onlyIfExists, n);
    }
  }

  /** The file's text with its last character, the `:` after the path, dropped (`f[:-1]`). */
  function DropLast(s: string): string {
    if |s| == 0 then s else s[..|s| - 1]
  }

  /** `old.append(f)`, or a new one-element list when there was none. */
  function AppendFile(p: Package, w: Profile, f: string): Package {
    var list := if w in p.files then p.files[w] else [];
    p.(files := p.files[w := list + [f]])
  }

  /**
   * `f, p = fields`: unpacking raises unless there are exactly two fields, `packages[p]`
   * raises for an unknown package; otherwise the file, trailing `:` dropped, is appended to
   * that package's list for the profile and nothing else changes.
   */
  function AddFields(m: map<string, Package>, w: Profile, t: seq<string>): (r: Result<map<string, Package>>)
    ensures |t| != 2 ==> r == Err(ValueError)
    ensures |t| == 2 && t[1] !in m ==> r == Err(KeyError)
    ensures r.Ok? ==>
      |t| == 2 && t[1] in m && t[1] in r.value && r.value.Keys == m.Keys &&
      Files(r.value[t[1]], w) == Some(Files(m[t[1]], w).GetOr([]) + [DropLast(t[0])]) &&
      forall n :: n in m && n != t[1] ==> r.value[n] == m[n]
  {
    if |t| != 2 then Err(ValueError)
    else if t[1] !in m then Err(KeyError)
    else if !IsRuntime(w) then Err(AttributeError)
    else
      var p := AppendFile(m[t[1]], w, DropLast(t[0]));
      assert Files(p, w) == Some(Files(m[t[1]], w).GetOr([]) + [DropLast(t[0])]);
      Ok(m[t[1] := p])
  }

  /** One line of a `.matched` file: `line.strip().split()`, then the two fields. */
  function AddFileLine(m: map<string, Package>, w: Profile, line: string): Result<map<string, Package>> {
    AddFields(m, w, SplitWhitespace(Strip(line)))
  }

  /** The loop over every line of the file. */
  function AddFileLines(m: map<string, Package>, w: Profile, lines: seq<string>): Result<map<string, Package>>
    decreases |lines|
  {
    if |lines| == 0 then Ok(m)
    else
      match AddFileLine(m, w, lines[0])
      case Err(e) => Err(e)
      case Ok(m1) => AddFileLines(m1, w, lines[1..])
  }

  /** One turn of the loop: the lines from `i` on are line `i`, then the lines after it. */
  lemma AddFileLinesStep(m: map<string, Package>, w: Profile, lines: seq<string>, i: nat)
    requires i < |lines|
    ensures AddFileLines(m, w, lines[i..]) ==
      match AddFileLine(m, w, lines[i])
      case Err(e) => Err(e)
      case Ok(m1) => AddFileLines(m1, w, lines[i + 1..])
  {
    assert lines[i..][1..] == lines[i + 1..];
  }

  lemma StripUnchanged(s: string)
    requires |s| > 0 && !IsSpace(s[0]) && !IsSpace(s[|s| - 1])
    ensures Strip(s) == s
  {
  }

  /**
   * The `.matched` lines the resolver writes read back: the line `path + ": " + provider`
   * files `path` under `provider` for the profile.
   */
  lemma MatchedLineReadBack(m: map<string, Package>, w: Profile, path: string, provider: string)
    requires NoSpace(path) && |provider| > 0 && NoSpace(provider)
    requires provider in m && IsRuntime(w)
    ensures AddFileLine(m, w, path + ": " + provider) == Ok(m[provider := AppendFile(m[provider], w, path)])
  {
    var line := path + ": " + provider;
    var tok := path + ":";
    MatchedLineShape(path, provider);
    TokenWithColon(path);
    StripUnchanged(line);
    SplitWhitespaceJoin([tok, provider]);
  }

  /** The line is the two tokens joined by one space, and its ends are not white space. */
  lemma MatchedLineShape(path: string, provider: string)
    requires NoSpace(path) && |provider| > 0 && NoSpace(provider)
    ensures var line := path + ": " + provider;
      Join([path + ":", provider], " ") == line &&
      !IsSpace(line[0]) && !IsSpace(line[|line| - 1])
  {
    var line := path + ": " + provider;
    assert line[|line| - 1] == provider[|provider| - 1];
    assert Join([path + ":", provider], " ") == path + ":" + " " + provider;
    assert path + ":" + " " == path + ": ";
    if |path| > 0 {
      assert line[0] == path[0];
    } else {
      assert line[0] == ':';
    }
  }

  /** `path:` is a token and dropping its last character gives back `path`. */
  lemma TokenWithColon(path: string)
    requires NoSpace(path)
    ensures var tok := path + ":"; |tok| > 0 && NoSpace(tok) && DropLast(tok) == path
  {
    var tok := path + ":";
    assert tok[|tok| - 1] == ':';
    forall j | 0 <= j < |tok| ensures !IsSpace(tok[j]) {
      if j < |path| { assert tok[j] == path[j]; }
    }
    assert tok[..|tok| - 1] == path;
  }

  /** `' '.join(files)` after `Files: `, cut to three files and ` ...`. */
  function FilesText(files: Option<seq<string>>): string {
    match files
    case None => ""
    case Some(fs) =>
      if |fs| <= 3 then "Files: " + Join(fs, " ")
      else "Files: " + Join(fs[..3], " ") + " ..."
  }

  /**
   * The files part names the first three files, in order, then the marker ` ...` exactly
   * when there are more: split back on spaces it returns those names.
   */
  lemma FilesTextShowsThree(fs: seq<string>)
    requires |fs| > 0 && forall k :: 0 <= k < |fs| ==> ' ' !in fs[k]
    ensures StartsWith(FilesText(Some(fs)), "Files: ")
    ensures Split(FilesText(Some(fs))[7..], " ") == if |fs| <= 3 then fs else fs[..3] + ["..."]
  {
    var prefix := "Files: ";
    var shown := if |fs| <= 3 then fs else fs[..3] + ["..."];
    assert forall k :: 0 <= k < |shown| ==> ' ' !in shown[k];
    if |fs| > 3 {
      JoinSnoc(fs[..3], "...", " ");
      assert shown[..3] == fs[..3];
    }
    assert FilesText(Some(fs)) == prefix + Join(shown, " ");
    SplitJoin(shown, " ");
  }

  lemma {:induction false} JoinSnoc(xs: seq<string>, x: string, sep: string)
    requires |xs| >= 1
    ensures Join(xs + [x], sep) == Join(xs, sep) + sep + x
  {
    var ys := xs + [x];
    assert ys[1..] == xs[1..] + [x];
    if |xs| > 1 {
      JoinSnoc(xs[1..], x, sep);
    }
  }

  /** `'{} ({})'.format(req, provider)` for one entry. */
  function EntryText(e: (string, string)): string {
    e.0 + " (" + e.1 + ")"
  }

  function First(e: (string, string)): string {
    e.0
  }

  /** The entries in the order they are printed: by requiring package, or as appended. */
  function RequiredByOrder(rb: seq<(string, string)>, sorted: bool): seq<(string, string)> {
    if sorted then SortBy(rb, First, StringLe()) else rb
  }

  /** One line per entry. */
  function EntryLines(es: seq<(string, string)>): (r: seq<string>)
    ensures |r| == |es| && forall k :: 0 <= k < |es| ==> r[k] == EntryText(es[k])
  {
    seq(|es|, k requires 0 <= k < |es| => EntryText(es[k]))
  }

  function RequiredByText(rb: Option<seq<(string, string)>>, sorted: bool): string {
    match rb
    case None => ""
    case Some(es) => Join(EntryLines(RequiredByOrder(es, sorted)), "\n")
  }

  /**
   * The sorted `required_by` text is one line per entry, the same entries, ordered by the
   * requiring package's name.
   */
  lemma RequiredByLines(es: seq<(string, string)>, sorted: bool)
    requires |es| > 0
    requires forall k :: 0 <= k < |es| ==> '\n' !in EntryText(es[k])
    ensures var order := RequiredByOrder(es, sorted);
      multiset(order) == multiset(es) &&
      Split(RequiredByText(Some(es), sorted), "\n") == EntryLines(order) &&
      (sorted ==> SortedBy(order, First, StringLe())) &&
      (!sorted ==> order == es)
  {
    var order := RequiredByOrder(es, sorted);
    if sorted {
      StringLeTotal();
      SortBySorted(es, First, StringLe());
    }
    var lines := EntryLines(order);
    forall k | 0 <= k < |lines| ensures "\n"[0] !in lines[k] {
      assert order[k] in multiset(es);
      var j :| 0 <= j < |es| && es[j] == order[k];
    }
    SplitJoin(lines, "\n");
  }

  /**
   * `why(which)`: the files part and the `required_by` part, joined by a newline only when
   * both are non-empty. The legacy script prints `required_by` unsorted.
   */
  function Why(p: Package, w: Profile, sorted: bool): (r: Result<string>)
    ensures r.Err? <==> !IsRuntime(w)
    ensures r.Ok? ==>
      var f, q := FilesText(Files(p, w)), RequiredByText(RequiredBy(p, w), sorted);
      (f != "" && q != "" ==> r.value == f + "\n" + q) &&
      (f == "" || q == "" ==> r.value == f + q)
  {
    if !IsRuntime(w) then Err(AttributeError)
    else
      var f := FilesText(Files(p, w));
      var q := RequiredByText(RequiredBy(p, w), sorted);
      if f != "" && q != "" then Ok(f + "\n" + q)
      else if f != "" then Ok(f)
      else if q != "" then Ok(q)
      else Ok("")
  }

  /** A package is reported empty exactly when it has no files and no `required_by` text. */
  lemma WhyEmpty(p: Package, w: Profile, sorted: bool)
    requires IsRuntime(w)
    ensures Why(p, w, sorted).Ok?
    ensures Why(p, w, sorted).value == "" <==>
      FilesText(Files(p, w)) == "" && RequiredByText(RequiredBy(p, w), sorted) == ""
  {
  }

  /** With files, the text starts with the files part; the `required_by` part ends it. */
  lemma WhyParts(p: Package, w: Profile, sorted: bool)
    requires IsRuntime(w)
    ensures var r, f, q := Why(p, w, sorted).value, FilesText(Files(p, w)), RequiredByText(RequiredBy(p, w), sorted);
      StartsWith(r, f) && EndsWith(r, q)
  {
    var r, f, q := Why(p, w, sorted).value, FilesText(Files(p, w)), RequiredByText(RequiredBy(p, w), sorted);
    if f != "" && q != "" {
      assert r == f + ("\n" + q);
      assert r[..|f|] == f;
      assert r[|r| - |q|..] == q;
    } else {
      assert r == f + q;
      assert r[..|f|] == f;
      assert r[|r| - |q|..] == q;
    }
  }

  /** A source package and the binary packages built from it, in the order the report sorts them; `klass` and `modules` read the first. */
  datatype SourcePackage = SourcePackage(name: Option<string>, members: seq<Package>)

  /** `package.modules`: the package's module, or `""`. */
  function ModuleOf(p: Package, packageToModule: map<string, string>): string {
    if p.name in packageToModule then packageToModule[p.name] else ""
  }

  /** Present in one of the two platform profiles. */
  predicate OnPlatform(p: Package) {
    Level(p, FreedesktopPlatform) != 0 || Level(p, GnomePlatform) != 0
  }

  /** The `sdk_only` loop of `klass`: clear the flag for each member found on a platform. */
  method SdkOnly(members: seq<Package>) returns (sdkOnly: bool)
    ensures sdkOnly <==> forall k :: 0 <= k < |members| ==> !OnPlatform(members[k])
  {
    sdkOnly := true;
    for i := 0 to |members|
      invariant sdkOnly <==> forall k :: 0 <= k < i ==> !OnPlatform(members[k])
    {
      if OnPlatform(members[i]) {
        sdkOnly := false;
      }
    }
  }

  /**
   * `SourcePackage.klass`: source packages of no module or of `installer` are to be built
   * for the SDK, or for the platform when some member is on a platform; others get no class.
   */
  function SourceKlass(sp: SourcePackage, packageToModule: map<string, string>): (k: string)
    requires |sp.members| > 0
    ensures var m := ModuleOf(sp.members[0], packageToModule);
      (k == "build-sdk" <==> (m == "" || m == "installer") && forall i :: 0 <= i < |sp.members| ==> !OnPlatform(sp.members[i])) &&
      (k == "build-platform" <==> (m == "" || m == "installer") && exists i :: 0 <= i < |sp.members| && OnPlatform(sp.members[i])) &&
      (k == "" <==> m != "" && m != "installer")
  {
    var m := ModuleOf(sp.members[0], packageToModule);
    if m == "" || m == "installer" then
      if forall i :: 0 <= i < |sp.members| ==> !OnPlatform(sp.members[i]) then "build-sdk"
      else "build-platform"
    else ""
  }

  /** `SourcePackage.modules`: the module it is in now, and the runtime module it moves to. */
  function SourceModules(sp: SourcePackage, packageToModule: map<string, string>): Option<string>
    requires |sp.members| > 0
  {
    var current := ModuleOf(sp.members[0], packageToModule);
    var klass := SourceKlass(sp, packageToModule);
    var target :=
      if klass == "build-platform" then Some("desktop-runtime")
      else if klass == "build-sdk" then Some("flatpak-runtime")
      else None;
    if current != "" && target.Some? then Some(current + " ⇒ " + target.value)
    else if current != "" then Some(current)
    else target
  }

  /**
   * There is always a module to show: a package outside any module moves to its runtime
   * module, an `installer` package shows the move with an arrow, any other module is kept.
   */
  lemma SourceModulesCases(sp: SourcePackage, packageToModule: map<string, string>)
    requires |sp.members| > 0
    ensures var current, r := ModuleOf(sp.members[0], packageToModule), SourceModules(sp, packageToModule);
      var target := if exists i :: 0 <= i < |sp.members| && OnPlatform(sp.members[i]) then "desktop-runtime" else "flatpak-runtime";
      r.Some? &&
      (current == "" ==> r.value == target) &&
      (current == "installer" ==> r.value == "installer ⇒ " + target) &&
      (current != "" && current != "installer" ==> r.value == current)
  {
    var current, k := ModuleOf(sp.members[0], packageToModule), SourceKlass(sp, packageToModule);
    if current == "" || current == "installer" {
      if exists i :: 0 <= i < |sp.members| && OnPlatform(sp.members[i]) {
        assert k == "build-platform";
      } else {
        assert k == "build-sdk";
      }
    } else {
      assert k == "";
    }
  }

  /** The global `packages` dict and the functions that fill it. */
  class PackageDb {
    var packages: map<string, Package>

    constructor()
      ensures packages == map[]
    {
      packages := map[];
    }

    /** `add_package`. */
    method AddPackage(name: string, w: Profile, level: nat, onlyIfExists: bool, source: Option<string>)
      modifies this
      ensures packages == AddPackageTo(old(packages), name, w, level, onlyIfExists, source)
    {
      var pkg: Package;
      if name in packages {
        pkg := packages[name];
      } else {
        if onlyIfExists {
          return;
        }
        pkg := NewPackage(name);
      }
      assert pkg == Existing(packages, name);
      if Level(pkg, w) < level {
        pkg := pkg.(levels := pkg.levels[w := level]);
      }
      ghost var raised := pkg;
      if source.Some? {
        pkg := pkg.(sourcePackage := source);
      }
      packages := packages[name := pkg];
    }

    /**
     * `add_packages`: `names` is the package list (read from the file, or given), `rs` the
     * `resolve-deps` output for it. On an exception the table is left as far as it got.
     */
    method AddPackages(w: Profile, names: seq<string>, resolveDeps: bool, onlyIfExists: bool, rs: seq<Resolved>)
      returns (r: Result<()>)
      modifies this
      ensures var spec := AddPackagesTo(old(packages), w, names, resolveDeps, onlyIfExists, rs);
        (r.Ok? <==> spec.Ok?) && (r.Err? ==> r.error == spec.error) && (spec.Ok? ==> packages == spec.value)
    {
      if resolveDeps {
        r := AddResolvedLoop(w, names, onlyIfExists, rs);
        if r.Err? {
          return;
        }
        r := RequiredByLoop(w, rs);
      } else {
        for i := 0 to |names|
          invariant AddNames(packages, names[i..], w, onlyIfExists) == AddNames(old(packages), names, w, onlyIfExists)
        {
          assert names[i..][1..] == names[i + 1..];
          AddPackage(names[i], w, 2, onlyIfExists, None);
        }
        r := Ok(());
      }
    }

    method AddResolvedLoop(w: Profile, names: seq<string>, onlyIfExists: bool, rs: seq<Resolved>)
      returns (r: Result<()>)
      modifies this
      ensures var spec := AddResolved(old(packages), rs, w, names, onlyIfExists);
        (r.Ok? <==> spec.Ok?) && (r.Err? ==> r.error == spec.error) && (spec.Ok? ==> packages == spec.value)
    {
      for i := 0 to |rs|
        invariant AddResolved(packages, rs[i..], w, names, onlyIfExists) == AddResolved(old(packages), rs, w, names, onlyIfExists)
      {
        assert rs[i..][1..] == rs[i + 1..];
        var name := NvrToName(rs[i].rpm);
        if name.Err? {
          return Err(name.error);
        }
        var srpm := NvrToName(rs[i].srpm);
        if srpm.Err? {
          return Err(srpm.error);
        }
        AddPackage(name.value, w, if name.value in names then 2 else 1, onlyIfExists, Some(srpm.value));
      }
      r := Ok(());
    }

    method RequiredByLoop(w: Profile, rs: seq<Resolved>) returns (r: Result<()>)
      modifies this
      ensures var spec := RecordRequiredBy(old(packages), w, rs);
        (r.Ok? <==> spec.Ok?) && (r.Err? ==> r.error == spec.error) && (spec.Ok? ==> packages == spec.value)
    {
      for i := 0 to |rs|
        invariant RecordRequiredBy(packages, w, rs[i..]) == RecordRequiredBy(old(packages), w, rs)
      {
        assert rs[i..][1..] == rs[i + 1..];
        r := RequiresLoop(w, rs[i].rpm, rs[i].reqs);
        if r.Err? {
          return;
        }
      }
      r := Ok(());
    }

    method RequiresLoop(w: Profile, rpm: string, reqs: seq<(string, seq<string>)>) returns (r: Result<()>)
      modifies this
      ensures var spec := AddRequires(old(packages), w, rpm, reqs);
        (r.Ok? <==> spec.Ok?) && (r.Err? ==> r.error == spec.error) && (spec.Ok? ==> packages == spec.value)
    {
      for i := 0 to |reqs|
        invariant AddRequires(packages, w, rpm, reqs[i..]) == AddRequires(old(packages), w, rpm, reqs)
      {
        assert reqs[i..][1..] == reqs[i + 1..];
        var (req, providers) := reqs[i];
        if |providers| == 0 {
          return Err(IndexError);
        }
        var provider := NvrToName(providers[0]);
        if provider.Err? {
          return Err(provider.error);
        }
        if provider.value !in packages {
          continue;
        }
        if !IsRuntime(w) {
          return Err(AttributeError);
        }
        var name := NvrToName(rpm);
        if name.Err? {
          return Err(name.error);
        }
        packages := packages[provider.value := AppendRequiredBy(packages[provider.value], w, (name.value, req))];
      }
      r := Ok(());
    }

    /** `add_package_files`: the lines of one `.matched` file. */
    method AddPackageFiles(w: Profile, lines: seq<string>) returns (r: Result<()>)
      modifies this
      ensures var spec := AddFileLines(old(packages), w, lines);
        (r.Ok? <==> spec.Ok?) && (r.Err? ==> r.error == spec.error) && (spec.Ok? ==> packages == spec.value)
    {
      for i := 0 to |lines|
        invariant AddFileLines(packages, w, lines[i..]) == AddFileLines(old(packages), w, lines)
      {
        AddFileLinesStep(packages, w, lines, i);
        var t := SplitWhitespace(Strip(lines[i]));
        if |t| != 2 {
          return Err(ValueError);
        }
        var (f, p) := (DropLast(t[0]), t[1]);
        if p !in packages {
          return Err(KeyError);
        }
        if !IsRuntime(w) {
          return Err(AttributeError);
        }
        packages := packages[p := AppendFile(packages[p], w, f)];
      }
      r := Ok(());
    }
  }
}
