/**
 * tools/util.py's repository access: `RepoInfo.get_metadata_file`, which finds a metadata
 * file through `repomd.xml` and refuses one outside the repository, and
 * `get_repo_cacheable`, which keeps a derived structure in `out/<name>.gz` tagged with
 * the hash of `repomd.xml`.
 *
 * Paths are pathlib's pure paths on POSIX: a root flag and components, with empty and `.`
 * components dropped and `..` kept, as pathlib does. `repomd.xml` is its `data` elements
 * in document order. The cache directory is an object holding the files by path.
 */
module Repo {
  import opened Wrappers
  import opened Strings

  /** A `PurePosixPath`: absolute or not, and its components. */
  datatype PurePath = PurePath(absolute: bool, parts: seq<string>)

  /** Components of a path string as pathlib keeps them. */
  function Components(ss: seq<string>): (r: seq<string>)
    ensures forall i :: 0 <= i < |r| ==> r[i] != "" && r[i] != "."
    ensures |r| <= |ss|
  {
    if |ss| == 0 then []
    else
      var rest := Components(ss[1..]);
      if ss[0] == "" || ss[0] == "." then rest
      else
        assert forall i :: 1 <= i < 1 + |rest| ==> ([ss[0]] + rest)[i] == rest[i - 1];
        [ss[0]] + rest
  }

  /** `PurePosixPath(s)` (a leading `//`, which POSIX lets pathlib keep, is read as `/`). */
  function ParsePath(s: string): PurePath {
    PurePath(StartsWith(s, "/"), Components(Split(s, "/")))
  }

  /** `p.parent`: the root and `.` are their own parents. */
  function Parent(p: PurePath): (r: PurePath)
    ensures r.absolute == p.absolute
    ensures |p.parts| > 0 ==> r.parts + [p.parts[|p.parts| - 1]] == p.parts
    ensures |p.parts| == 0 ==> r == p
  {
    if |p.parts| == 0 then p else PurePath(p.absolute, p.parts[..|p.parts| - 1])
  }

  /** `base / loc`: an absolute `loc` replaces `base`. */
  function JoinPath(base: PurePath, loc: PurePath): (r: PurePath)
    ensures loc.absolute ==> r == loc
    ensures !loc.absolute ==> r.absolute == base.absolute && r.parts == base.parts + loc.parts
  {
    if loc.absolute then loc else PurePath(base.absolute, base.parts + loc.parts)
  }

  function CommonPrefix(a: seq<string>, b: seq<string>): (c: seq<string>)
    ensures c <= a && c <= b
    ensures |c| < |a| && |c| < |b| ==> a[|c|] != b[|c|]
  {
    if |a| == 0 || |b| == 0 || a[0] != b[0] then []
    else [a[0]] + CommonPrefix(a[1..], b[1..])
  }

  /** `Path(os.path.commonpath([a, b]))`: mixing an absolute and a relative path is a `ValueError`. */
  function CommonPath(a: PurePath, b: PurePath): (r: Result<PurePath>)
    ensures r.Ok? <==> a.absolute == b.absolute
    ensures r.Err? ==> r.error == ValueError
  {
    if a.absolute != b.absolute then Err(ValueError)
    else Ok(PurePath(a.absolute, CommonPrefix(a.parts, b.parts)))
  }

  /** The common path of `a` and `b` is `b` exactly when `b`'s components begin `a`'s. */
  lemma {:induction false} CommonPrefixIsWhole(a: seq<string>, b: seq<string>)
    ensures CommonPrefix(a, b) == b <==> b <= a
  {
    if |a| > 0 && |b| > 0 && a[0] == b[0] {
      CommonPrefixIsWhole(a[1..], b[1..]);
      assert b == [b[0]] + b[1..];
      assert a == [a[0]] + a[1..];
    }
  }

  /** A `data` element of `repomd.xml`: its type and the attributes of its `location` child, if any. */
  datatype DataElement = DataElement(dataType: string, location: Option<map<string, string>>)

  /** `RepoInfo`: where the metadata lives, and `repomd.xml` as parsed. */
  datatype RepoInfo = RepoInfo(metadataPath: PurePath, repomd: seq<DataElement>)

  /** `root.find("./repo:data[@type=...]/repo:location")`: the first such `location` in document order. */
  function FindLocation(repomd: seq<DataElement>, dataType: string): (r: Option<map<string, string>>)
    ensures r.Some? <==> exists i :: 0 <= i < |repomd| && repomd[i].dataType == dataType && repomd[i].location.Some?
    ensures r.Some? ==> exists i :: 0 <= i < |repomd| && repomd[i].dataType == dataType && repomd[i].location == r
  {
    if |repomd| == 0 then None
    else if repomd[0].dataType == dataType && repomd[0].location.Some? then repomd[0].location
    else
      var r := FindLocation(repomd[1..], dataType);
      assert forall i :: 1 <= i < |repomd| ==> repomd[i] == repomd[1..][i - 1];
      r
  }

  /** The path that `get_metadata_file` builds before checking it. */
  function Located(repo: RepoInfo, href: string): PurePath {
    JoinPath(Parent(repo.metadataPath), ParsePath(href))
  }

  /**
   * `get_metadata_file` as written: no location is `AssertionError`, no `href` is
   * `KeyError`, an absolute/relative mix is `ValueError`, and a path whose common path
   * with `metadata_path` is not `metadata_path` is `RuntimeError`.
   */
  function GetMetadataFile(repo: RepoInfo, dataType: string): (r: Result<PurePath>)
    ensures r.Ok? ==> r.value.absolute == repo.metadataPath.absolute && repo.metadataPath.parts <= r.value.parts
    ensures var loc := FindLocation(repo.repomd, dataType);
      (r == Err(AssertionError) <==> loc.None?) &&
      (r == Err(KeyError) <==> loc.Some? && "href" !in loc.value)
    ensures var loc := FindLocation(repo.repomd, dataType);
      loc.Some? && "href" in loc.value ==>
        var path := Located(repo, loc.value["href"]);
        (r == Err(ValueError) <==> path.absolute != repo.metadataPath.absolute) &&
        (r == Err(RuntimeError) <==> path.absolute == repo.metadataPath.absolute && !(repo.metadataPath.parts <= path.parts)) &&
        (r.Ok? ==> r.value == path)
  {
    var location := FindLocation(repo.repomd, dataType);
    if location.None? then Err(AssertionError)
    else if "href" !in location.value then Err(KeyError)
    else
      var path := Located(repo, location.value["href"]);
      match CommonPath(path, repo.metadataPath)
      case Err(e) => Err(e)
      case Ok(common) =>
        if common != repo.metadataPath then Err(RuntimeError)
        else
          CommonPrefixIsWhole(path.parts, repo.metadataPath.parts);
          Ok(path)
  }

  /** The check accepts exactly the paths whose components begin with those of `metadata_path`. */
  lemma MetadataFileAccepted(repo: RepoInfo, dataType: string)
    requires FindLocation(repo.repomd, dataType).Some?
    requires "href" in FindLocation(repo.repomd, dataType).value
    ensures var path := Located(repo, FindLocation(repo.repomd, dataType).value["href"]);
            var inside := path.absolute == repo.metadataPath.absolute && repo.metadataPath.parts <= path.parts;
            GetMetadataFile(repo, dataType).Ok? <==> inside
  {
    var path := Located(repo, FindLocation(repo.repomd, dataType).value["href"]);
    CommonPrefixIsWhole(path.parts, repo.metadataPath.parts);
  }

  /** Lexical resolution of `..`: a component is cancelled by a following `..`; at the root `..` stays at the root. */
  function Resolve(p: PurePath): (r: PurePath)
    ensures r.absolute == p.absolute
  {
    PurePath(p.absolute, ResolveParts(p.absolute, [], p.parts))
  }

  function ResolveParts(absolute: bool, done: seq<string>, todo: seq<string>): seq<string>
    decreases |todo|
  {
    if |todo| == 0 then done
    else if todo[0] == ".." then
      if |done| > 0 && done[|done| - 1] != ".." then ResolveParts(absolute, done[..|done| - 1], todo[1..])
      else if absolute then ResolveParts(absolute, done, todo[1..])
      else ResolveParts(absolute, done + [".."], todo[1..])
    else ResolveParts(absolute, done + [todo[0]], todo[1..])
  }

  /** Without `..` components, resolution changes nothing. */
  lemma {:induction false} ResolveNoDots(absolute: bool, done: seq<string>, todo: seq<string>)
    requires ".." !in todo
    ensures ResolveParts(absolute, done, todo) == done + todo
    decreases |todo|
  {
    if |todo| > 0 {
      assert todo[0] in todo;
      assert forall x :: x in todo[1..] ==> x in todo;
      ResolveNoDots(absolute, done + [todo[0]], todo[1..]);
      assert done + [todo[0]] + todo[1..] == done + todo;
    } else {
      assert done + todo == done;
    }
  }

  /**
   * The check is lexical and lets `..` through: with `metadata_path` `/cache/repodata`, the
   * `href` `repodata/../../etc/shadow` is accepted, yet it names `/etc/shadow`.
   */
  lemma DotDotEscapes(repo: RepoInfo, href: string)
    requires repo.metadataPath == PurePath(true, ["cache", "repodata"])
    requires href == "repodata/../../etc/shadow"
    requires repo.repomd == [DataElement("filelists", Some(map["href" := href]))]
    ensures GetMetadataFile(repo, "filelists") == Ok(PurePath(true, ["cache", "repodata", "..", "..", "etc", "shadow"]))
    ensures Resolve(GetMetadataFile(repo, "filelists").value) == PurePath(true, ["etc", "shadow"])
    ensures !(repo.metadataPath.parts <= Resolve(GetMetadataFile(repo, "filelists").value).parts)
  {
    var pieces := ["repodata", "..", "..", "etc", "shadow"];
    assert Split(href, "/") == pieces by {
      JoinPieces(pieces, href);
      SplitJoin(pieces, "/");
    }
    ShadowComponents(pieces);
    var path := PurePath(true, ["cache", "repodata", "..", "..", "etc", "shadow"]);
    assert Located(repo, href) == path;
    CommonPrefixIsWhole(path.parts, repo.metadataPath.parts);
    assert repo.metadataPath.parts <= path.parts;
    ShadowResolves(path.parts);
  }

  lemma ShadowComponents(pieces: seq<string>)
    requires pieces == ["repodata", "..", "..", "etc", "shadow"]
    ensures Components(pieces) == pieces
  {
    ComponentsCons(pieces[4..]);
    ComponentsCons(pieces[3..]);
    ComponentsCons(pieces[2..]);
    ComponentsCons(pieces[1..]);
    ComponentsCons(pieces);
  }

  /** A first component that is neither empty nor `.` is kept. */
  lemma ComponentsCons(ss: seq<string>)
    requires |ss| > 0 && |ss[0]| > 1 && Components(ss[1..]) == ss[1..]
    ensures Components(ss) == ss
  {
    assert [ss[0]] + ss[1..] == ss;
  }

  lemma ShadowResolves(parts: seq<string>)
    requires parts == ["cache", "repodata", "..", "..", "etc", "shadow"]
    ensures ResolveParts(true, [], parts) == ["etc", "shadow"]
  {
    var c, r, e, sh := parts[0], parts[1], parts[4], parts[5];
    assert ResolveParts(true, [e, sh], parts[6..]) == [e, sh];
    ResolveKeep(true, [e], parts[5..]);
    assert [e] + [sh] == [e, sh];
    ResolveKeep(true, [], parts[4..]);
    assert [] + [e] == [e];
    ResolveBack(true, [c], parts[3..]);
    ResolveBack(true, [c, r], parts[2..]);
    assert [c, r][..1] == [c];
    ResolveKeep(true, [c], parts[1..]);
    assert [c] + [r] == [c, r];
    ResolveKeep(true, [], parts);
    assert [] + [c] == [c];
  }

  /** A component other than `..` is appended. */
  lemma ResolveKeep(absolute: bool, done: seq<string>, todo: seq<string>)
    requires |todo| > 0 && todo[0] != ".."
    ensures ResolveParts(absolute, done, todo) == ResolveParts(absolute, done + [todo[0]], todo[1..])
  {
  }

  /** `..` drops the last kept component when there is one. */
  lemma ResolveBack(absolute: bool, done: seq<string>, todo: seq<string>)
    requires |todo| > 0 && todo[0] == ".." && |done| > 0 && done[|done| - 1] != ".."
    ensures ResolveParts(absolute, done, todo) == ResolveParts(absolute, done[..|done| - 1], todo[1..])
  {
  }

  lemma JoinPieces(pieces: seq<string>, href: string)
    requires pieces == ["repodata", "..", "..", "etc", "shadow"]
    requires href == "repodata/../../etc/shadow"
    ensures Join(pieces, "/") == href && forall k :: 0 <= k < |pieces| ==> '/' !in pieces[k]
  {
    var a, b, c, d, e := pieces[0], pieces[1], pieces[2], pieces[3], pieces[4];
    Join5(a, b, c, d, e, "/");
    assert pieces == [a, b, c, d, e];
    HrefPieces(a, b, c, d, e, href);
  }

  lemma HrefPieces(a: string, b: string, c: string, d: string, e: string, href: string)
    requires a == "repodata" && b == ".." && c == ".." && d == "etc" && e == "shadow"
    requires href == "repodata/../../etc/shadow"
    ensures href == a + "/" + (b + "/" + (c + "/" + (d + "/" + e)))
  {
  }

  lemma Join5(a: string, b: string, c: string, d: string, e: string, sep: string)
    ensures Join([a, b, c, d, e], sep) == a + sep + (b + sep + (c + sep + (d + sep + e)))
  {
    JoinCons(d, [e], sep);
    assert [d, e] == [d] + [e];
    JoinCons(c, [d, e], sep);
    assert [c, d, e] == [c] + [d, e];
    JoinCons(b, [c, d, e], sep);
    assert [b, c, d, e] == [b] + [c, d, e];
    JoinCons(a, [b, c, d, e], sep);
    assert [a, b, c, d, e] == [a] + [b, c, d, e];
  }

  /** `get_metadata_file` with `..` resolved before the containment check. */
  function GetMetadataFileResolved(repo: RepoInfo, dataType: string): (r: Result<PurePath>)
    ensures r.Ok? ==> Resolve(repo.metadataPath).parts <= Resolve(r.value).parts
    ensures r.Ok? ==> r.value.absolute == repo.metadataPath.absolute
  {
    var location := FindLocation(repo.repomd, dataType);
    if location.None? then Err(AssertionError)
    else if "href" !in location.value then Err(KeyError)
    else
      var path := Located(repo, location.value["href"]);
      match CommonPath(Resolve(path), Resolve(repo.metadataPath))
      case Err(e) => Err(e)
      case Ok(common) =>
        if common != Resolve(repo.metadataPath) then Err(RuntimeError)
        else
          CommonPrefixIsWhole(Resolve(path).parts, Resolve(repo.metadataPath).parts);
          Ok(path)
  }

  /** Where neither `metadata_path` nor the built path has a `..`, the two checks agree. */
  lemma ResolvedAgrees(repo: RepoInfo, dataType: string)
    requires ".." !in repo.metadataPath.parts
    requires FindLocation(repo.repomd, dataType).Some? && "href" in FindLocation(repo.repomd, dataType).value
             ==> ".." !in Located(repo, FindLocation(repo.repomd, dataType).value["href"]).parts
    ensures GetMetadataFileResolved(repo, dataType) == GetMetadataFile(repo, dataType)
  {
    var location := FindLocation(repo.repomd, dataType);
    ResolveNoDots(repo.metadataPath.absolute, [], repo.metadataPath.parts);
    assert [] + repo.metadataPath.parts == repo.metadataPath.parts;
    if location.Some? && "href" in location.value {
      var path := Located(repo, location.value["href"]);
      ResolveNoDots(path.absolute, [], path.parts);
      assert [] + path.parts == path.parts;
    }
  }

  /** A cache file as a reader finds it: the first 64 characters, then a pickle that may not load. */
  datatype CacheFile<D> = CacheFile(header: string, payload: Option<D>)

  /** What reading the cache finds. */
  datatype Lookup<D> = Hit(data: D) | Corrupt | Miss

  /** The read step of `get_repo_cacheable`: no file and a stale hash are misses. */
  function LookupCache<D>(file: Option<CacheFile<D>>, repoHash: string): (r: Lookup<D>)
    ensures r.Hit? <==> file.Some? && file.value.header == repoHash && file.value.payload.Some?
    ensures r.Hit? ==> r.data == file.value.payload.value
    ensures r.Miss? <==> file.None? || file.value.header != repoHash
  {
    if file.None? then Miss
    else if file.value.header != repoHash then Miss
    else if file.value.payload.None? then Corrupt
    else Hit(file.value.payload.value)
  }

  /** What the write step leaves: the hash, then the data. */
  lemma StoredIsHit<D>(repoHash: string, data: D)
    ensures LookupCache(Some(CacheFile(repoHash, Some(data))), repoHash) == Hit(data)
  {
  }

  /** `out/<name>.gz`. */
  function CachePath(name: string): string {
    "out/" + name + ".gz"
  }

  /** The `out` directory, holding cache files by path. */
  class CacheStore<D> {
    var files: map<string, CacheFile<D>>

    constructor(initial: map<string, CacheFile<D>>)
      ensures files == initial
    {
      files := initial;
    }

    function FileAt(path: string): Option<CacheFile<D>>
      reads this
    {
      if path in files then Some(files[path]) else None
    }

    /**
     * `get_repo_cacheable(name, generate)` for a repository whose `repomd.xml` hashes to
     * `repoHash`: a hit returns the stored data and `generate` does not run; a miss runs
     * `generate` and stores the hash with the data. A pickle that does not load raises.
     */
    method GetRepoCacheable(name: string, repo: RepoInfo, repoHash: string, generate: RepoInfo -> D)
      returns (r: Result<D>, generated: bool)
      modifies this
      ensures var found := LookupCache(old(FileAt(CachePath(name))), repoHash);
              && (found.Hit? ==> r == Ok(found.data) && !generated && files == old(files))
              && (found.Corrupt? ==> r == Err(UnpicklingError) && !generated && files == old(files))
              && (found.Miss? ==>
                    r == Ok(generate(repo)) && generated
                    && files == old(files)[CachePath(name) := CacheFile(repoHash, Some(generate(repo)))])
    {
      var path := CachePath(name);
      var file := FileAt(path);
      if file.Some? {
        var oldHash := file.value.header;
        if oldHash == repoHash {
          if file.value.payload.None? {
            return Err(UnpicklingError), false;
          }
          return Ok(file.value.payload.value), false;
        }
      }
      var data := generate(repo);
      files := files[path := CacheFile(repoHash, Some(data))];
      return Ok(data), true;
    }
  }

  /** After any successful call, asking again with the same hash is a hit on the same data. */
  lemma CacheSettles<D>(before: Option<CacheFile<D>>, repoHash: string, generated: D)
    requires !LookupCache(before, repoHash).Corrupt?
    ensures var after := if LookupCache(before, repoHash).Miss? then Some(CacheFile(repoHash, Some(generated))) else before;
            LookupCache(after, repoHash).Hit?
            && LookupCache(after, repoHash).data == (if LookupCache(before, repoHash).Hit? then LookupCache(before, repoHash).data else generated)
  {
  }
}
