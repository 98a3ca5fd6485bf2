/**
 * `update_container_yaml` of `tools/generate-container-yaml.py`: the placeholder
 * substitution on the template text, the sorted package list, the in-place reshaping of
 * `name platforms` entries and the replacement of `flatpak.packages`.
 */
module ContainerYaml {
  import opened Wrappers
  import opened Strings
  import opened Sorting

  // ---------------------------------------------------------------------------------------
  // placeholders

  /** Text in which the placeholder cannot start is copied. */
  lemma {:induction false} ReplacePlain(a: string, t: string, pat: string, rep: string)
    requires |pat| > 0 && pat[0] !in a
    ensures Replace(a + t, pat, rep) == a + Replace(t, pat, rep)
    decreases |a|
  {
    if |a| > 0 {
      var u := a + t;
      assert a[0] in a;
      assert u[0] == a[0] != pat[0];
      assert u[1..] == a[1..] + t;
      assert forall c :: c in a[1..] ==> c in a;
      ReplacePlain(a[1..], t, pat, rep);
      assert a + Replace(t, pat, rep) == [a[0]] + (a[1..] + Replace(t, pat, rep));
    } else {
      assert a + t == t;
    }
  }

  /** A placeholder at the start is replaced. */
  lemma ReplaceHit(t: string, pat: string, rep: string)
    requires |pat| > 0
    ensures Replace(pat + t, pat, rep) == rep + Replace(t, pat, rep)
  {
    var u := pat + t;
    assert u[..|pat|] == pat && u[|pat|..] == t;
  }

  /**
   * Every occurrence is replaced: text made of pieces the placeholder cannot start in,
   * joined by the placeholder, becomes the same pieces joined by the value.
   */
  lemma {:induction false} ReplaceTemplate(pieces: seq<string>, pat: string, rep: string)
    requires |pat| > 0 && |pieces| >= 1
    requires forall k :: 0 <= k < |pieces| ==> pat[0] !in pieces[k]
    ensures Replace(Join(pieces, pat), pat, rep) == Join(pieces, rep)
    decreases |pieces|
  {
    if |pieces| == 1 {
      ReplacePlain(pieces[0], "", pat, rep);
      assert pieces[0] + "" == pieces[0];
    } else {
      var tail := Join(pieces[1..], pat);
      JoinFirst(pieces, pat);
      ReplacePlain(pieces[0], pat + tail, pat, rep);
      ReplaceHit(tail, pat, rep);
      ReplaceTemplate(pieces[1..], pat, rep);
      JoinFirst(pieces, rep);
    }
  }

  /** Text without the placeholder's first character is left alone. */
  lemma ReplaceAbsent(s: string, pat: string, rep: string)
    requires |pat| > 0 && pat[0] !in s
    ensures Replace(s, pat, rep) == s
  {
    ReplaceTemplate([s], pat, rep);
  }

  /** The template text after `@ID_PREFIX@` and then `@RELEASE@` are replaced by the configured values. */
  function Substitute(template: string, idPrefix: string, release: string): string {
    Replace(Replace(template, "@ID_PREFIX@", idPrefix), "@RELEASE@", release)
  }

  /**
   * With values and surrounding text free of `@`, each placeholder of the template is
   * replaced by its value and nothing else changes.
   */
  lemma SubstituteBoth(a: string, b: string, c: string, idPrefix: string, release: string,
                       idPat: string, relPat: string)
    requires idPat == "@ID_PREFIX@" && relPat == "@RELEASE@"
    requires '@' !in a && '@' !in b && '@' !in c && '@' !in idPrefix && '@' !in release
    ensures Substitute(a + idPat + b + relPat + c, idPrefix, release) == a + idPrefix + b + release + c
  {
    ReleaseUntouched(c, idPat, idPrefix, relPat);
    FirstPass(a, b, relPat + c, idPrefix, idPat);
    assert a + idPat + b + (relPat + c) == a + idPat + b + relPat + c;
    assert a + idPrefix + b + (relPat + c) == a + idPrefix + b + relPat + c;
    SecondPass(a + idPrefix + b, c, release, relPat);
    assert (a + idPrefix + b) + (relPat + c) == a + idPrefix + b + relPat + c;
    assert (a + idPrefix + b) + (release + c) == a + idPrefix + b + release + c;
  }

  /** A pass of one placeholder over text with one occurrence, followed by text it leaves alone. */
  lemma FirstPass(a: string, b: string, tail: string, value: string, pat: string)
    requires |pat| > 0 && pat[0] !in a && pat[0] !in b
    requires Replace(tail, pat, value) == tail
    ensures Replace(a + pat + b + tail, pat, value) == a + value + b + tail
  {
    var rest := b + tail;
    Assoc4(a, pat, b, tail);
    ReplacePlain(a, pat + rest, pat, value);
    ReplaceHit(rest, pat, value);
    ReplacePlain(b, tail, pat, value);
    Assoc4(a, value, b, tail);
  }

  /** The `@RELEASE@` pass on the text the first pass left. */
  lemma SecondPass(front: string, c: string, release: string, relPat: string)
    requires relPat == "@RELEASE@"
    requires '@' !in front && '@' !in c
    ensures Replace(front + (relPat + c), relPat, release) == front + (release + c)
  {
    ReplacePlain(front, relPat + c, relPat, release);
    ReplaceHit(c, relPat, release);
    ReplaceAbsent(c, relPat, release);
  }

  /** The `@ID_PREFIX@` pass leaves `@RELEASE@` and the text after it alone. */
  lemma ReleaseUntouched(c: string, idPat: string, idPrefix: string, relPat: string)
    requires idPat == "@ID_PREFIX@" && relPat == "@RELEASE@"
    requires '@' !in c
    ensures Replace(relPat + c, idPat, idPrefix) == relPat + c
  {
    var s := relPat + c;
    assert s[1] != idPat[1];
    assert s[1..] == "RELEASE" + ("@" + c);
    ReplacePlain("RELEASE", "@" + c, idPat, idPrefix);
    var t := "@" + c;
    if |t| >= |idPat| {
      assert t[10] == c[9];
    }
    assert t[1..] == c;
    ReplaceAbsent(c, idPat, idPrefix);
  }

  // ---------------------------------------------------------------------------------------
  // the package list

  /** Packages every container gets, patterns for the packages of each language. */
  const PreloadPackages: seq<string> := [
    "flatpak-runtime-config",
    "glibc-langpack-*",
    "hunspell-??",
    "hunspell-??-*",
    "hunspell-???",
    "hyphen-??",
    "hyphen-??-*",
    "hyphen-???",
    "mythes-??",
    "mythes-??-*"
  ]

  /** `[line.strip() for line in f]`. */
  function StrippedLines(lines: seq<string>): (r: seq<string>)
    ensures |r| == |lines| && forall k :: 0 <= k < |lines| ==> r[k] == Strip(lines[k])
  {
    seq(|lines|, k requires 0 <= k < |lines| => Strip(lines[k]))
  }

  /** The order of `key=str.lower`. */
  function LowerLe(): (le: (string, string) -> bool)
    ensures forall a, b :: le(a, b) == LessEq(Lower(a), Lower(b))
  {
    (a: string, b: string) => LessEq(Lower(a), Lower(b))
  }

  lemma LowerLeTotal()
    ensures TotalPreorder(LowerLe())
  {
    LessEqTotalOrder();
  }

  function Itself(s: string): string {
    s
  }

  /**
   * `sorted(preload_packages + [line.strip() for line in f], key=str.lower)`: the preload
   * entries and the stripped lines, each as often as given, ordered by their lower-cased
   * form; entries of the same lower-cased form keep their input order, as Python's sort is
   * stable. The preload list is a parameter; the script passes `PreloadPackages`.
   */
  function PackageList(preload: seq<string>, lines: seq<string>): (r: seq<string>)
    ensures multiset(r) == multiset(preload + StrippedLines(lines))
    ensures |r| == |preload| + |lines|
    ensures SortedBy(r, Itself, LowerLe())
    ensures forall w :: SameRankIn(r, Itself, LowerLe(), w) == SameRankIn(preload + StrippedLines(lines), Itself, LowerLe(), w)
  {
    LowerLeTotal();
    SortBySorted(preload + StrippedLines(lines), Itself, LowerLe());
    SortByKeepsRanks(preload + StrippedLines(lines), Itself, LowerLe());
    var r := SortBy(preload + StrippedLines(lines), Itself, LowerLe());
    assert |r| == |multiset(r)|;
    r
  }

  /** Every preload entry and every stripped line is in the list. */
  lemma PackageListHasAll(preload: seq<string>, lines: seq<string>, x: string)
    requires x in preload || exists k :: 0 <= k < |lines| && x == Strip(lines[k])
    ensures x in PackageList(preload, lines)
  {
    var all := preload + StrippedLines(lines);
    if x in preload {
      var k :| 0 <= k < |preload| && preload[k] == x;
      assert all[k] == x;
    } else {
      var k :| 0 <= k < |lines| && x == Strip(lines[k]);
      assert all[|preload| + k] == x;
    }
    assert x in multiset(all);
  }

  // ---------------------------------------------------------------------------------------
  // reshaping the entries

  /** An entry of `flatpak.packages`: a package name, or a name limited to some platforms. */
  datatype Entry = Name(text: string) | OnlyOn(name: string, platforms: seq<string>)

  /**
   * The loop body: an entry of exactly two white-space separated parts becomes
   * `{name: part0, platforms: {only: part1.split(',')}}`; any other entry stays.
   */
  function Reshape(e: Entry): Entry {
    match e
    case Name(t) =>
      var parts := SplitWhitespace(t);
      if |parts| == 2 then OnlyOn(parts[0], Split(parts[1], ",")) else e
    case OnlyOn(_, _) => e
  }

  /**
   * What `Reshape` does: an entry of two parts keeps the first as its name and the second,
   * cut at the commas, as its platforms; every other entry is unchanged.
   */
  lemma ReshapeSpec(e: Entry)
    ensures !(e.Name? && |SplitWhitespace(e.text)| == 2) ==> Reshape(e) == e
    ensures e.Name? && |SplitWhitespace(e.text)| == 2 ==>
      Reshape(e).OnlyOn? && Reshape(e).name == SplitWhitespace(e.text)[0] &&
      Join(Reshape(e).platforms, ",") == SplitWhitespace(e.text)[1]
  {
    if e.Name? && |SplitWhitespace(e.text)| == 2 {
      var part := SplitWhitespace(e.text)[1];
      JoinSplitN(part, ",", |part|);
    }
  }

  /** Every entry reshaped, in order. */
  function ReshapeAll(es: seq<Entry>): seq<Entry>
    decreases |es|
  {
    if |es| == 0 then [] else ReshapeAll(es[..|es| - 1]) + [Reshape(es[|es| - 1])]
  }

  /** The list keeps its length and each entry is reshaped at its own index. */
  lemma {:induction false} ReshapeAllAt(es: seq<Entry>, k: int)
    requires 0 <= k < |es|
    ensures |ReshapeAll(es)| == |es| && ReshapeAll(es)[k] == Reshape(es[k])
    decreases |es|
  {
    ReshapeAllLength(es);
    if k < |es| - 1 {
      ReshapeAllAt(es[..|es| - 1], k);
    }
  }

  /** A list reshaped entry by entry is the reshaped list. */
  lemma ReshapeAllMatches(es: seq<Entry>, rs: seq<Entry>)
    requires |rs| == |es| && forall k :: 0 <= k < |es| ==> rs[k] == Reshape(es[k])
    ensures rs == ReshapeAll(es)
  {
    ReshapeAllLength(es);
    forall k | 0 <= k < |es| ensures rs[k] == ReshapeAll(es)[k] {
      ReshapeAllAt(es, k);
    }
  }

  lemma {:induction false} ReshapeAllLength(es: seq<Entry>)
    ensures |ReshapeAll(es)| == |es|
    decreases |es|
  {
    if |es| > 0 {
      ReshapeAllLength(es[..|es| - 1]);
    }
  }

  /** A plain package name is left as it is. */
  lemma PlainNameKept(x: string)
    requires |x| > 0 && NoSpace(x)
    ensures Reshape(Name(x)) == Name(x)
  {
    SplitWhitespaceJoin([x]);
  }

  /** A line `name p1,p2,…` comes out as the name limited to exactly those platforms. */
  lemma PlatformsRoundTrip(name: string, platforms: seq<string>)
    requires |name| > 0 && NoSpace(name)
    requires |platforms| >= 1
    requires forall k :: 0 <= k < |platforms| ==> |platforms[k]| > 0 && NoSpace(platforms[k]) && ',' !in platforms[k]
    ensures Reshape(Name(name + " " + Join(platforms, ","))) == OnlyOn(name, platforms)
  {
    var joined := Join(platforms, ",");
    JoinTokens(platforms);
    assert Join([name, joined], " ") == name + " " + joined;
    SplitWhitespaceJoin([name, joined]);
    SplitJoin(platforms, ",");
  }

  /** Platforms joined by commas form one non-empty token. */
  lemma {:induction false} JoinTokens(platforms: seq<string>)
    requires |platforms| >= 1
    requires forall k :: 0 <= k < |platforms| ==> |platforms[k]| > 0 && NoSpace(platforms[k])
    ensures |Join(platforms, ",")| > 0 && NoSpace(Join(platforms, ","))
    decreases |platforms|
  {
    if |platforms| > 1 {
      JoinTokens(platforms[1..]);
      var j := platforms[0] + "," + Join(platforms[1..], ",");
      assert forall i :: 0 <= i < |j| ==> j[i] == ',' || !IsSpace(j[i]) by {
        forall i | 0 <= i < |j| ensures j[i] == ',' || !IsSpace(j[i]) {
          if i < |platforms[0]| {
            assert j[i] == platforms[0][i];
          } else if i > |platforms[0]| {
            assert j[i] == Join(platforms[1..], ",")[i - |platforms[0]| - 1];
          }
        }
      }
    }
  }

  /** The loop `for i, package in enumerate(packages)`, rewriting `packages[i]` in place. */
  method ReshapeInPlace(a: array<Entry>)
    modifies a
    ensures a[..] == ReshapeAll(old(a[..]))
  {
    for i := 0 to a.Length
      invariant forall k :: 0 <= k < i ==> a[k] == Reshape(old(a[k]))
      invariant forall k :: i <= k < a.Length ==> a[k] == old(a[k])
    {
      ReshapeAt(a, i);
    }
    ReshapeAllMatches(old(a[..]), a[..]);
  }

  /** One pass of the loop body: `packages[i]` is split and, when it has two parts, replaced. */
  method ReshapeAt(a: array<Entry>, i: int)
    requires 0 <= i < a.Length
    modifies a
    ensures a[i] == Reshape(old(a[i]))
    ensures forall k :: 0 <= k < a.Length && k != i ==> a[k] == old(a[k])
  {
    var package := a[i];
    if package.Name? {
      var parts := SplitWhitespace(package.text);
      if |parts| == 2 {
        a[i] := OnlyOn(parts[0], Split(parts[1], ","));
      }
    }
  }

  // ---------------------------------------------------------------------------------------
  // the document

  /** A YAML node: a scalar (as its text), a mapping, or the package list this script writes. */
  datatype Node = Scalar(text: string) | Mapping(fields: map<string, Node>) | Packages(entries: seq<Entry>)

  /**
   * `container_yaml["flatpak"]["packages"] = packages`: a missing `flatpak` raises
   * `KeyError`, and one that is not a mapping `TypeError`. Only `flatpak.packages` changes.
   */
  function SetPackages(doc: map<string, Node>, entries: seq<Entry>): (r: Result<map<string, Node>>)
    ensures "flatpak" !in doc ==> r == Err(KeyError)
    ensures "flatpak" in doc && !doc["flatpak"].Mapping? ==> r == Err(TypeError)
    ensures r.Ok? <==> "flatpak" in doc && doc["flatpak"].Mapping?
    ensures r.Ok? ==>
      r.value.Keys == doc.Keys &&
      (forall k :: k in doc && k != "flatpak" ==> r.value[k] == doc[k]) &&
      r.value["flatpak"].Mapping? &&
      r.value["flatpak"].fields.Keys == doc["flatpak"].fields.Keys + {"packages"} &&
      r.value["flatpak"].fields["packages"] == Packages(entries) &&
      (forall k :: k in doc["flatpak"].fields && k != "packages" ==> r.value["flatpak"].fields[k] == doc["flatpak"].fields[k])
  {
    if "flatpak" !in doc then Err(KeyError)
    else
      match doc["flatpak"]
      case Mapping(fields) => Ok(doc["flatpak" := Mapping(fields["packages" := Packages(entries)])])
      case _ => Err(TypeError)
  }

  /** The package part of `update_container_yaml` on the parsed template and the profile's lines. */
  method UpdatePackages(doc: map<string, Node>, lines: seq<string>) returns (r: Result<map<string, Node>>)
    ensures r == SetPackages(doc, ReshapeAll(NamesOf(PackageList(PreloadPackages, lines))))
  {
    var names := PackageList(PreloadPackages, lines);
    var packages := ReshapedEntries(names);
    r := SetPackages(doc, packages);
  }

  /** The sorted names put in a list of entries, which is then reshaped in place. */
  method ReshapedEntries(names: seq<string>) returns (packages: seq<Entry>)
    ensures packages == ReshapeAll(NamesOf(names))
  {
    var a := new Entry[|names|](k requires 0 <= k < |names| => Name(names[k]));
    assert a[..] == NamesOf(names);
    ReshapeInPlace(a);
    packages := a[..];
  }

  /** The sorted strings as entries of the list. */
  function NamesOf(names: seq<string>): (r: seq<Entry>)
    ensures |r| == |names| && forall k :: 0 <= k < |names| ==> r[k] == Name(names[k])
  {
    seq(|names|, k requires 0 <= k < |names| => Name(names[k]))
  }
}
