/**
 * The runtime report of `tools/generate-runtime-report.py`: how a package is shown per
 * profile (`inclusion`, `klass`, `note`), the `package-notes.txt` parser, the dispatch of
 * extra packages by flag, applying the notes to the package table, and the profile files.
 */
module RuntimeReport {
  import opened Wrappers
  import opened Strings
  import opened ReportData

  /** A flag starting with `E` marks a package added on purpose. */
  predicate ExtraFlag(flag: Option<string>) {
    flag.Some? && |flag.value| > 0 && flag.value[0] == 'E'
  }

  /** In the GNOME platform but not on the Live image. */
  predicate GnomeNotLive(p: Package) {
    Level(p, GnomePlatform) != 0 && Level(p, Live) == 0
  }

  /** The entries of a package's `required_by` list for the profile, when it has one. */
  predicate HasRequirers(p: Package, w: Profile) {
    RequiredBy(p, w).Some? && |RequiredBy(p, w).value| > 0
  }

  /**
   * `inclusion(which)`: absent at level 0, `dep` at level 1; above that, `present` for the
   * profiles without a `_required_by` attribute, `files` when something requires the
   * package, `extra` for a flagged extra, and `root` otherwise.
   */
  function Inclusion(p: Package, w: Profile): (r: string)
    ensures r == "absent" <==> Level(p, w) == 0
    ensures r == "dep" <==> Level(p, w) == 1
    ensures r == "present" <==> Level(p, w) >= 2 && !IsRuntime(w)
    ensures r == "files" <==> Level(p, w) >= 2 && IsRuntime(w) && HasRequirers(p, w)
    ensures r == "extra" <==> Level(p, w) >= 2 && IsRuntime(w) && !HasRequirers(p, w) && ExtraFlag(p.flag)
    ensures r == "root" <==> Level(p, w) >= 2 && IsRuntime(w) && !HasRequirers(p, w) && !ExtraFlag(p.flag)
  {
    var level := Level(p, w);
    if level == 0 then "absent"
    else if level == 1 then "dep"
    else if !IsRuntime(w) then "present"
    else
      var rb := RequiredBy(p, w);
      if rb.Some? && |rb.value| > 0 then "files"
      else if ExtraFlag(p.flag) then "extra"
      else "root"
  }

  /**
   * The plain lists only mark packages that exist: each listed package that was stored is
   * `present` on the Live image afterwards.
   */
  lemma LiveListMarksPresent(m: map<string, Package>, names: seq<string>, k: nat)
    requires k < |names| && names[k] in m
    ensures names[k] in AddNames(m, names, Live, true)
    ensures Inclusion(AddNames(m, names, Live, true)[names[k]], Live) == "present"
  {
    AddNamesRoots(m, names, Live, true);
  }

  /**
   * `klass`: the CSS class of a package's row, from its flag, falling back to
   * `questionable` for a GNOME platform package missing from the Live image.
   */
  function Klass(p: Package): (k: Option<string>)
    ensures p.flag == Some("F") ==> k == Some("flagged")
    ensures p.flag == Some("F?") ==> k == Some("questionable")
    ensures p.flag == Some("FD") ==> k == Some("flagged-dep")
    ensures p.flag == Some("W") ==> k == Some("waived")
    ensures ExtraFlag(p.flag) ==> k == Some("extra")
    ensures !ExtraFlag(p.flag) && p.flag !in {Some("F"), Some("F?"), Some("FD"), Some("W")} ==>
      (k.Some? <==> GnomeNotLive(p)) && (k.Some? ==> k.value == "questionable")
  {
    if p.flag == Some("F") then Some("flagged")
    else if p.flag == Some("F?") then Some("questionable")
    else if p.flag == Some("FD") then Some("flagged-dep")
    else if p.flag == Some("W") then Some("waived")
    else if ExtraFlag(p.flag) then Some("extra")
    else if GnomeNotLive(p) then Some("questionable")
    else None
  }

  /** The classes the report's stylesheet knows. */
  predicate StyleClass(k: string) {
    k == "flagged" || k == "questionable" || k == "flagged-dep" || k == "waived" || k == "extra"
  }

  /** Every class a row can get is one the stylesheet defines. */
  lemma KlassIsStyle(p: Package)
    ensures Klass(p).Some? ==> StyleClass(Klass(p).value)
  {
  }

  /** `note`: the note from `package-notes.txt`, else the Live-image remark, else nothing. */
  function Note(p: Package): (r: string)
    ensures p.note.Some? && p.note.value != "" ==> r == p.note.value
    ensures !(p.note.Some? && p.note.value != "") ==>
      r == (if GnomeNotLive(p) then "platform package not on Live image" else "")
  {
    if p.note.Some? && p.note.value != "" then p.note.value
    else if GnomeNotLive(p) then "platform package not on Live image"
    else ""
  }

  /** A flag from the notes file, such as `F`, `F?`, `EB_SDK`. */
  predicate FlagChar(c: char) {
    'A' <= c <= 'Z' || c == '_' || c == '?'
  }

  /** `re.match('[A-Z_?]+$', x)` on a stripped `x`. */
  predicate IsFlag(x: string) {
    |x| > 0 && forall i :: 0 <= i < |x| ==> FlagChar(x[i])
  }

  /**
   * `re.sub('\s*#.*', '', line).strip()`: the text before the first `#`, stripped; the white
   * space the pattern takes before the `#` would be stripped anyway.
   */
  function StripComment(line: string): (r: string)
    ensures '#' !in r
    ensures '#' !in line ==> r == Strip(line)
  {
    var h := FindChar(line, '#');
    var s := if h < 0 then line else line[..h];
    assert '#' !in s;
    StripWithin(s);
    Strip(s)
  }

  lemma StripWithin(s: string)
    ensures forall c :: c in Strip(s) ==> c in s
  {
    var r := RStrip(s);
    var l := LStrip(r);
    forall c | c in l ensures c in s {
      var i :| 0 <= i < |l| && l[i] == c;
      assert l[i] == r[|r| - |l| + i];
      assert r[|r| - |l| + i] == s[|r| - |l| + i];
    }
  }

  /** One note: the package, its free-text note and its flag, each possibly absent. */
  datatype PackageNote = PackageNote(name: string, note: Option<string>, flag: Option<string>)

  /** What one line of `package-notes.txt` is. */
  datatype NoteLine = Blank | Unparsed(text: string) | Parsed(entry: PackageNote)

  /**
   * One line of the notes file: blank and comment-only lines are skipped; `name`,
   * `name: FLAG`, `name: note`, `name: FLAG: note`; when the middle part is not a flag, all
   * of the text after the first colon is the note.
   */
  function ParseNoteLine(line: string): (r: NoteLine)
    ensures r.Blank? <==> StripComment(line) == ""
    ensures r.Unparsed? ==> r.text == StripComment(line)
    ensures r.Parsed? ==> |r.entry.name| > 0 && !IsSpace(r.entry.name[0])
    ensures r.Parsed? && r.entry.flag.Some? ==> IsFlag(r.entry.flag.value)
  {
    var s := StripComment(line);
    if s == "" then Blank else FromParts(s, SplitN(s, ":", 2))
  }

  /** The `parts = line.split(":", 2)` cases. */
  function FromParts(s: string, parts: seq<string>): (r: NoteLine)
    requires |parts| >= 1
    ensures !r.Blank?
    ensures r.Unparsed? ==> r.text == s
    ensures r.Parsed? ==> r.entry.name == Strip(parts[0]) && |r.entry.name| > 0 && !IsSpace(r.entry.name[0])
    ensures r.Parsed? && r.entry.flag.Some? ==> IsFlag(r.entry.flag.value)
  {
    var name := Strip(parts[0]);
    if !(|name| > 0 && !IsSpace(name[0])) then Unparsed(s)
    else if |parts| == 1 then Parsed(PackageNote(name, None, None))
    else
      var x := Strip(parts[1]);
      if |parts| == 2 then
        if IsFlag(x) then Parsed(PackageNote(name, None, Some(x)))
        else Parsed(PackageNote(name, Some(x), None))
      else if IsFlag(x) then Parsed(PackageNote(name, Some(Strip(parts[2])), Some(x)))
      else Parsed(PackageNote(name, Some(parts[1] + ":" + parts[2]), None))
  }

  /** `name: FLAG: note` with a note that may itself hold colons reads back as written. */
  lemma FlaggedNoteRoundTrip(name: string, flag: string, note: string)
    requires |name| > 0 && NoSpace(name) && ':' !in name && '#' !in name
    requires IsFlag(flag)
    requires |note| > 0 && !IsSpace(note[0]) && !IsSpace(note[|note| - 1]) && '#' !in note
    ensures ParseNoteLine(name + ": " + flag + ": " + note) == Parsed(PackageNote(name, Some(note), Some(flag)))
  {
    var line := name + ": " + flag + ": " + note;
    var mid, tail := " " + flag, " " + note;
    FlagText(flag);
    LineShape(name, flag, note, ":", mid, tail, line);
    CleanLine(line);
    assert line[0] == name[0] && line[|line| - 1] == note[|note| - 1];
    ThreeParts(name, mid, tail, ":");
    FlaggedParts(line, name, flag, note);
  }

  lemma FlagText(flag: string)
    requires IsFlag(flag)
    ensures ':' !in flag && '#' !in flag && NoSpace(flag)
    ensures ':' !in " " + flag && '#' !in " " + flag
  {
    assert forall i :: 0 <= i < |flag| ==> FlagChar(flag[i]);
  }

  lemma LineShape(name: string, flag: string, note: string, sep: string, mid: string, tail: string, line: string)
    requires sep == ":" && mid == " " + flag && tail == " " + note && line == name + ": " + flag + ": " + note
    ensures line == name + sep + (mid + sep + tail)
  {
  }

  /** A line without `#` and without surrounding white space is its own comment-free text. */
  lemma CleanLine(line: string)
    requires |line| > 0 && '#' !in line && !IsSpace(line[0]) && !IsSpace(line[|line| - 1])
    ensures StripComment(line) == line
  {
  }

  lemma ThreeParts(name: string, mid: string, tail: string, sep: string)
    requires |sep| == 1 && sep[0] !in name && sep[0] !in mid
    ensures SplitN(name + sep + (mid + sep + tail), sep, 2) == [name, mid, tail]
  {
    SplitNCons(name, mid + sep + tail, sep, 2);
    SplitNCons(mid, tail, sep, 1);
    assert tail[0..] == tail;
  }

  lemma FlaggedParts(line: string, name: string, flag: string, note: string)
    requires |name| > 0 && NoSpace(name) && IsFlag(flag)
    requires |note| > 0 && !IsSpace(note[0]) && !IsSpace(note[|note| - 1])
    ensures FromParts(line, [name, " " + flag, " " + note]) == Parsed(PackageNote(name, Some(note), Some(flag)))
  {
    FlagText(flag);
    StripNoSpace(name);
    StripSpaced(flag);
    StripSpaced(note);
  }

  /** `name: FLAG` reads back as a flag and no note. */
  lemma FlagOnlyRoundTrip(name: string, flag: string)
    requires |name| > 0 && NoSpace(name) && ':' !in name && '#' !in name
    requires IsFlag(flag)
    ensures ParseNoteLine(name + ": " + flag) == Parsed(PackageNote(name, None, Some(flag)))
  {
    var line := name + ": " + flag;
    var mid := " " + flag;
    FlagText(flag);
    ShortLineShape(name, flag, ":", mid, line);
    assert line[0] == name[0] && line[|line| - 1] == flag[|flag| - 1];
    CleanLine(line);
    TwoParts(name, mid, ":");
    FlagParts(line, name, flag);
  }

  lemma ShortLineShape(name: string, flag: string, sep: string, mid: string, line: string)
    requires sep == ":" && mid == " " + flag && line == name + ": " + flag
    ensures line == name + sep + mid
  {
  }

  lemma TwoParts(name: string, mid: string, sep: string)
    requires |sep| == 1 && sep[0] !in name && sep[0] !in mid
    ensures SplitN(name + sep + mid, sep, 2) == [name, mid]
  {
    SplitNCons(name, mid, sep, 2);
    NoSepSplit(mid, sep, 1);
  }

  lemma FlagParts(line: string, name: string, flag: string)
    requires |name| > 0 && NoSpace(name) && IsFlag(flag)
    ensures FromParts(line, [name, " " + flag]) == Parsed(PackageNote(name, None, Some(flag)))
  {
    FlagText(flag);
    StripNoSpace(name);
    StripSpaced(flag);
  }

  /**
   * When the text between the first two colons is not a flag, the note is everything after
   * the first colon, verbatim: later colons and the leading space are kept.
   */
  lemma UnflaggedNoteKeepsRest(name: string, rest: string)
    requires |name| > 0 && NoSpace(name) && ':' !in name && '#' !in name
    requires |rest| > 0 && '#' !in rest && !IsSpace(rest[|rest| - 1])
    requires ':' in rest && !IsFlag(Strip(rest[..FindChar(rest, ':')]))
    ensures ParseNoteLine(name + ":" + rest) == Parsed(PackageNote(name, Some(rest), None))
  {
    var line := name + ":" + rest;
    var k := FindChar(rest, ':');
    ColonLineClean(name, rest);
    assert ParseNoteLine(line) == FromParts(line, SplitN(line, ":", 2));
    ColonLineParts(name, rest, ":");
    UnflaggedParts(line, name, rest[..k], rest[k + 1..], SplitN(line, ":", 2));
    RestParts(rest, ":", k);
  }

  lemma ColonLineClean(name: string, rest: string)
    requires |name| > 0 && !IsSpace(name[0]) && '#' !in name
    requires |rest| > 0 && '#' !in rest && !IsSpace(rest[|rest| - 1])
    ensures StripComment(name + ":" + rest) == name + ":" + rest
  {
    var line := name + ":" + rest;
    assert line[0] == name[0] && line[|line| - 1] == rest[|rest| - 1];
    CleanLine(line);
  }

  lemma ColonLineParts(name: string, rest: string, sep: string)
    requires |sep| == 1 && sep[0] !in name && sep[0] in rest
    ensures var k := FindChar(rest, sep[0]); SplitN(name + sep + rest, sep, 2) == [name, rest[..k], rest[k + 1..]]
  {
    var k := FindChar(rest, sep[0]);
    SplitNCons(name, rest, sep, 2);
    RestParts(rest, sep, k);
    assert [name] + [rest[..k], rest[k + 1..]] == [name, rest[..k], rest[k + 1..]];
  }

  /** The first colon splits the rest in two. */
  lemma RestParts(rest: string, sep: string, k: int)
    requires |sep| == 1 && k == FindChar(rest, sep[0]) && k >= 0
    ensures SplitN(rest, sep, 1) == [rest[..k], rest[k + 1..]]
    ensures rest == rest[..k] + sep + rest[k + 1..]
  {
    var a, b := rest[..k], rest[k + 1..];
    assert rest == a + sep + b;
    SplitNCons(a, b, sep, 1);
    assert b[0..] == b;
  }

  lemma UnflaggedParts(line: string, name: string, a: string, b: string, parts: seq<string>)
    requires |name| > 0 && NoSpace(name) && !IsFlag(Strip(a))
    requires parts == [name, a, b]
    ensures FromParts(line, parts) == Parsed(PackageNote(name, Some(a + ":" + b), None))
  {
    StripNoSpace(name);
    assert parts[0] == name && parts[1] == a && parts[2] == b && |parts| == 3;
  }

  lemma NoSepSplit(s: string, sep: string, n: nat)
    requires |sep| == 1 && sep[0] !in s
    ensures SplitN(s, sep, n) == [s]
  {
    NoSepNotFound(s, sep);
    assert s[0..] == s;
  }

  /** Splitting after a first piece free of the separator. */
  lemma SplitNCons(a: string, rest: string, sep: string, n: nat)
    requires |sep| == 1 && sep[0] !in a && n > 0
    ensures SplitN(a + sep + rest, sep, n) == [a] + SplitN(rest, sep, n - 1)
  {
    var s := a + sep + rest;
    FirstSep(a, sep, rest);
    assert s[0..|a|] == a;
    SplitFromShift(a + sep, rest, sep, 0, n - 1);
    assert (a + sep) + rest == s;
  }

  lemma StripNoSpace(x: string)
    requires |x| > 0 && NoSpace(x)
    ensures Strip(x) == x
  {
  }

  lemma StripSpaced(x: string)
    requires |x| > 0 && !IsSpace(x[0]) && !IsSpace(x[|x| - 1])
    ensures Strip(" " + x) == x
  {
    var s := " " + x;
    assert s[|s| - 1] == x[|x| - 1];
    assert RStrip(s) == s;
    assert s[1..] == x;
  }

  /** The notes the generator yields, in file order. */
  function NotesOf(lines: seq<string>): (r: seq<PackageNote>)
    ensures forall k :: 0 <= k < |r| ==> |r[k].name| > 0 && !IsSpace(r[k].name[0])
    decreases |lines|
  {
    if |lines| == 0 then []
    else
      var init := NotesOf(lines[..|lines| - 1]);
      var l := ParseNoteLine(lines[|lines| - 1]);
      if l.Parsed? then NamedSnoc(init, l.entry); init + [l.entry] else init
  }

  /** Appending a named note to named notes. */
  lemma NamedSnoc(init: seq<PackageNote>, e: PackageNote)
    requires forall k :: 0 <= k < |init| ==> |init[k].name| > 0 && !IsSpace(init[k].name[0])
    requires |e.name| > 0 && !IsSpace(e.name[0])
    ensures var r := init + [e]; forall k :: 0 <= k < |r| ==> |r[k].name| > 0 && !IsSpace(r[k].name[0])
  {
  }

  /** The lines that get the `Can't parse package note` warning. */
  function UnparsedOf(lines: seq<string>): seq<string>
    decreases |lines|
  {
    if |lines| == 0 then []
    else
      var init := UnparsedOf(lines[..|lines| - 1]);
      var l := ParseNoteLine(lines[|lines| - 1]);
      if l.Unparsed? then init + [l.text] else init
  }

  /** `read_package_notes` over the file's lines. */
  method ReadPackageNotes(lines: seq<string>) returns (notes: seq<PackageNote>, warnings: seq<string>)
    ensures notes == NotesOf(lines) && warnings == UnparsedOf(lines)
  {
    notes, warnings := [], [];
    for i := 0 to |lines|
      invariant notes == NotesOf(lines[..i]) && warnings == UnparsedOf(lines[..i])
    {
      assert lines[..i + 1][..i] == lines[..i];
      var l := ParseNoteLine(lines[i]);
      match l
      case Blank =>
      case Unparsed(text) => warnings := warnings + [text];
      case Parsed(entry) => notes := notes + [entry];
    }
    assert lines[..|lines|] == lines;
  }

  /** The names of the notes whose flag is one of `flags`, in order. */
  function WithFlag(notes: seq<PackageNote>, flags: set<string>): (r: seq<string>)
    ensures forall x :: x in r ==> exists k :: 0 <= k < |notes| && notes[k].name == x && notes[k].flag.Some? && notes[k].flag.value in flags
    decreases |notes|
  {
    if |notes| == 0 then []
    else
      var init := WithFlag(notes[..|notes| - 1], flags);
      var n := notes[|notes| - 1];
      assert forall k :: 0 <= k < |notes| - 1 ==> notes[..|notes| - 1][k] == notes[k];
      if n.flag.Some? && n.flag.value in flags then init + [n.name] else init
  }

  /** A wider set of flags selects every name a narrower one does. */
  lemma {:induction false} WithFlagMonotone(notes: seq<PackageNote>, f1: set<string>, f2: set<string>, x: string)
    requires f1 <= f2 && x in WithFlag(notes, f1)
    ensures x in WithFlag(notes, f2)
    decreases |notes|
  {
    var init := notes[..|notes| - 1];
    if x in WithFlag(init, f1) {
      WithFlagMonotone(init, f1, f2, x);
    }
  }

  /**
   * The four extra lists: `EB` packages go into the base platform and every larger runtime,
   * `EB_SDK` into both SDKs, `E` into the GNOME platform and SDK, `E_SDK` into the GNOME SDK.
   */
  method DispatchExtras(notes: seq<PackageNote>) returns (extraBase: seq<string>, extraBaseSdk: seq<string>, extra: seq<string>, extraSdk: seq<string>)
    ensures extraBase == WithFlag(notes, {"EB"})
    ensures extraBaseSdk == WithFlag(notes, {"EB", "EB_SDK"})
    ensures extra == WithFlag(notes, {"EB", "E"})
    ensures extraSdk == WithFlag(notes, {"EB", "EB_SDK", "E", "E_SDK"})
  {
    extraBase, extraBaseSdk, extra, extraSdk := [], [], [], [];
    for i := 0 to |notes|
      invariant extraBase == WithFlag(notes[..i], {"EB"})
      invariant extraBaseSdk == WithFlag(notes[..i], {"EB", "EB_SDK"})
      invariant extra == WithFlag(notes[..i], {"EB", "E"})
      invariant extraSdk == WithFlag(notes[..i], {"EB", "EB_SDK", "E", "E_SDK"})
    {
      assert notes[..i + 1][..i] == notes[..i];
      var n := notes[i];
      if n.flag == Some("EB") {
        extraBase := extraBase + [n.name];
        extraBaseSdk := extraBaseSdk + [n.name];
        extra := extra + [n.name];
        extraSdk := extraSdk + [n.name];
      } else if n.flag == Some("EB_SDK") {
        extraBaseSdk := extraBaseSdk + [n.name];
        extraSdk := extraSdk + [n.name];
      } else if n.flag == Some("E") {
        extra := extra + [n.name];
        extraSdk := extraSdk + [n.name];
      } else if n.flag == Some("E_SDK") {
        extraSdk := extraSdk + [n.name];
      }
    }
    assert notes[..|notes|] == notes;
  }

  /**
   * The runtimes nest: whatever is added to the base platform is added to both SDKs and the
   * GNOME platform, and everything extra ends up in the GNOME SDK.
   */
  lemma ExtrasNest(notes: seq<PackageNote>, x: string)
    ensures x in WithFlag(notes, {"EB"}) ==> x in WithFlag(notes, {"EB", "EB_SDK"}) && x in WithFlag(notes, {"EB", "E"})
    ensures x in WithFlag(notes, {"EB", "EB_SDK"}) || x in WithFlag(notes, {"EB", "E"}) ==> x in WithFlag(notes, {"EB", "EB_SDK", "E", "E_SDK"})
  {
    if x in WithFlag(notes, {"EB"}) {
      WithFlagMonotone(notes, {"EB"}, {"EB", "EB_SDK"}, x);
      WithFlagMonotone(notes, {"EB"}, {"EB", "E"}, x);
    }
    if x in WithFlag(notes, {"EB", "EB_SDK"}) {
      WithFlagMonotone(notes, {"EB", "EB_SDK"}, {"EB", "EB_SDK", "E", "E_SDK"}, x);
    }
    if x in WithFlag(notes, {"EB", "E"}) {
      WithFlagMonotone(notes, {"EB", "E"}, {"EB", "EB_SDK", "E", "E_SDK"}, x);
    }
  }

  /** One note applied to a stored package: a given flag or note replaces the old one. */
  function ApplyNote(p: Package, n: PackageNote): Package {
    var flagged := if n.flag.Some? then p.(flag := n.flag) else p;
    if n.note.Some? then flagged.(note := n.note) else flagged
  }

  /** The note loop on the package table; notes for unknown packages are skipped. */
  function ApplyNotesTo(m: map<string, Package>, notes: seq<PackageNote>): map<string, Package>
    decreases |notes|
  {
    if |notes| == 0 then m
    else
      var n := notes[0];
      ApplyNotesTo(if n.name in m then m[n.name := ApplyNote(m[n.name], n)] else m, notes[1..])
  }

  /** The names of notes for packages not in the table, each warned about. */
  function MissingNames(keys: set<string>, notes: seq<PackageNote>): seq<string>
    decreases |notes|
  {
    if |notes| == 0 then []
    else (if notes[0].name in keys then [] else [notes[0].name]) + MissingNames(keys, notes[1..])
  }

  /** The flags given for `name`, in file order. */
  function FlagsFor(notes: seq<PackageNote>, name: string): seq<string>
    decreases |notes|
  {
    if |notes| == 0 then []
    else (if notes[0].name == name && notes[0].flag.Some? then [notes[0].flag.value] else []) + FlagsFor(notes[1..], name)
  }

  /**
   * Notes change only flags and notes of stored packages, and the last flag given for a
   * package is the one it keeps.
   */
  lemma {:induction false} LastFlagWins(m: map<string, Package>, notes: seq<PackageNote>, name: string)
    requires name in m
    ensures var r := ApplyNotesTo(m, notes);
      r.Keys == m.Keys && name in r &&
      r[name].levels == m[name].levels && r[name].files == m[name].files &&
      r[name].requiredBy == m[name].requiredBy &&
      r[name].flag == (var fs := FlagsFor(notes, name); if |fs| > 0 then Some(fs[|fs| - 1]) else m[name].flag)
    decreases |notes|
  {
    if |notes| > 0 {
      var n := notes[0];
      var m1 := if n.name in m then m[n.name := ApplyNote(m[n.name], n)] else m;
      LastFlagWins(m1, notes[1..], name);
      var rest := FlagsFor(notes[1..], name);
      var head := if n.name == name && n.flag.Some? then [n.flag.value] else [];
      assert FlagsFor(notes, name) == head + rest;
      if |rest| == 0 {
        assert FlagsFor(notes, name) == head;
      } else {
        assert (head + rest)[|head + rest| - 1] == rest[|rest| - 1];
      }
    }
  }

  /** One turn of the note loop. */
  lemma ApplyNotesStep(m: map<string, Package>, notes: seq<PackageNote>, i: nat)
    requires i < |notes|
    ensures var n := notes[i];
      ApplyNotesTo(m, notes[i..]) == ApplyNotesTo(if n.name in m then m[n.name := ApplyNote(m[n.name], n)] else m, notes[i + 1..])
  {
    assert notes[i..][1..] == notes[i + 1..];
  }

  lemma MissingNamesStep(keys: set<string>, notes: seq<PackageNote>, i: nat)
    requires i < |notes|
    ensures MissingNames(keys, notes[i..]) == (if notes[i].name in keys then [] else [notes[i].name]) + MissingNames(keys, notes[i + 1..])
  {
    assert notes[i..][1..] == notes[i + 1..];
  }

  lemma SeqAssoc<T>(a: seq<T>, b: seq<T>, c: seq<T>)
    ensures a + (b + c) == a + b + c
  {
  }

  /** Applying the notes file to the table, warning about packages it does not know. */
  method ApplyNotes(db: PackageDb, notes: seq<PackageNote>) returns (warnings: seq<string>)
    modifies db
    ensures db.packages == ApplyNotesTo(old(db.packages), notes)
    ensures warnings == MissingNames(old(db.packages).Keys, notes)
  {
    warnings := [];
    ghost var keys := old(db.packages).Keys;
    for i := 0 to |notes|
      invariant ApplyNotesTo(db.packages, notes[i..]) == ApplyNotesTo(old(db.packages), notes)
      invariant db.packages.Keys == keys
      invariant warnings + MissingNames(keys, notes[i..]) == MissingNames(keys, notes)
    {
      var n := notes[i];
      ApplyNotesStep(db.packages, notes, i);
      MissingNamesStep(keys, notes, i);
      if n.name !in db.packages {
        SeqAssoc(warnings, [n.name], MissingNames(keys, notes[i + 1..]));
        warnings := warnings + [n.name];
        continue;
      }
      var pkg := db.packages[n.name];
      if n.flag.Some? {
        pkg := pkg.(flag := n.flag);
      }
      if n.note.Some? {
        pkg := pkg.(note := n.note);
      }
      assert pkg == ApplyNote(db.packages[n.name], n);
      db.packages := db.packages[n.name := pkg];
    }
  }

  /** A letter heading and its source packages, already in display order. */
  datatype Letter = Letter(letter: char, sources: seq<SourcePackage>)

  /** The names of the packages with a non-zero level for the profile, in order. */
  function ProfileNames(pkgs: seq<Package>, w: Profile): seq<string>
    decreases |pkgs|
  {
    if |pkgs| == 0 then []
    else
      var p := pkgs[|pkgs| - 1];
      ProfileNames(pkgs[..|pkgs| - 1], w) + (if Level(p, w) != 0 then [p.name] else [])
  }

  /** The profile lists exactly the packages present in it. */
  lemma {:induction false} ProfileNamesIff(pkgs: seq<Package>, w: Profile, name: string)
    ensures name in ProfileNames(pkgs, w) <==> exists k :: 0 <= k < |pkgs| && pkgs[k].name == name && Level(pkgs[k], w) != 0
    decreases |pkgs|
  {
    if |pkgs| > 0 {
      var init := pkgs[..|pkgs| - 1];
      ProfileNamesIff(init, w, name);
      assert forall k :: 0 <= k < |init| ==> init[k] == pkgs[k];
    }
  }

  lemma {:induction false} ProfileNamesAppend(a: seq<Package>, b: seq<Package>, w: Profile)
    ensures ProfileNames(a + b, w) == ProfileNames(a, w) + ProfileNames(b, w)
    decreases |b|
  {
    if |b| == 0 {
      assert a + b == a;
    } else {
      var b' := b[..|b| - 1];
      assert (a + b)[..|a + b| - 1] == a + b';
      ProfileNamesAppend(a, b', w);
    }
  }

  /** The members of the source packages, one source after the other. */
  function SourceMembers(sources: seq<SourcePackage>): seq<Package>
    decreases |sources|
  {
    if |sources| == 0 then [] else SourceMembers(sources[..|sources| - 1]) + sources[|sources| - 1].members
  }

  /** The members of every source package under the letters, in display order. */
  function LetterMembers(letters: seq<Letter>): seq<Package>
    decreases |letters|
  {
    if |letters| == 0 then [] else LetterMembers(letters[..|letters| - 1]) + SourceMembers(letters[|letters| - 1].sources)
  }

  /** The innermost loop: the members of one source package. */
  method MemberNames(members: seq<Package>, w: Profile) returns (names: seq<string>)
    ensures names == ProfileNames(members, w)
  {
    names := [];
    for i := 0 to |members|
      invariant names == ProfileNames(members[..i], w)
    {
      assert members[..i + 1][..i] == members[..i];
      if Level(members[i], w) != 0 {
        names := names + [members[i].name];
      }
    }
    assert members[..|members|] == members;
  }

  method SourceNames(sources: seq<SourcePackage>, w: Profile) returns (names: seq<string>)
    ensures names == ProfileNames(SourceMembers(sources), w)
  {
    names := [];
    for i := 0 to |sources|
      invariant names == ProfileNames(SourceMembers(sources[..i]), w)
    {
      assert sources[..i + 1][..i] == sources[..i];
      var more := MemberNames(sources[i].members, w);
      ProfileNamesAppend(SourceMembers(sources[..i]), sources[i].members, w);
      names := names + more;
    }
    assert sources[..|sources|] == sources;
  }

  /** `generate_profile`: the lines of the profile file for one runtime. */
  method GenerateProfile(letters: seq<Letter>, w: Profile) returns (lines: seq<string>)
    ensures lines == ProfileNames(LetterMembers(letters), w)
  {
    lines := [];
    for i := 0 to |letters|
      invariant lines == ProfileNames(LetterMembers(letters[..i]), w)
    {
      assert letters[..i + 1][..i] == letters[..i];
      var more := SourceNames(letters[i].sources, w);
      ProfileNamesAppend(LetterMembers(letters[..i]), SourceMembers(letters[i].sources), w);
      lines := lines + more;
    }
    assert letters[..|letters|] == letters;
  }
}
