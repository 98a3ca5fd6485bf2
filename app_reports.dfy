/**
 * The application reports of `tools/generate-app-reports.py`: the two-way id table, the
 * desktop-file map, the `Application` record with its derived ids and accumulated ratings,
 * the package lists written to `application-packages.json`, the description sanitiser and
 * the summary counters.
 */
module AppReports {
  import opened Wrappers
  import opened Strings
  import opened Sorting
  import opened Ranking
  import opened FilesMap

  // ---------------------------------------------------------------------------------------
  // `id_mappings` and its inversion

  /** The items of a dict: each key once, in insertion order. */
  predicate DistinctKeys(items: seq<(string, string)>) {
    forall i, j :: 0 <= i < j < |items| ==> items[i].0 != items[j].0
  }

  /** The dict whose items these are. */
  function DictOf(items: seq<(string, string)>): (m: map<string, string>)
    requires DistinctKeys(items)
    ensures forall i :: 0 <= i < |items| ==> items[i].0 in m && m[items[i].0] == items[i].1
    ensures forall k :: k in m ==> exists i :: 0 <= i < |items| && items[i].0 == k
  {
    map i | 0 <= i < |items| :: items[i].0 := items[i].1
  }

  /** The loop `for k, v in <copy of id_mappings>.items(): id_mappings[v] = k`, over the items seen so far. */
  function Inverted(ids: map<string, string>, items: seq<(string, string)>): map<string, string>
    decreases |items|
  {
    if |items| == 0 then ids
    else
      var last := items[|items| - 1];
      Inverted(ids, items[..|items| - 1])[last.1 := last.0]
  }

  /** The inversion loop, iterating over a snapshot of the items while it updates the dict. */
  method InvertIdMappings(items: seq<(string, string)>) returns (ids: map<string, string>)
    requires DistinctKeys(items)
    ensures ids == Inverted(DictOf(items), items)
  {
    ids := DictOf(items);
    for i := 0 to |items|
      invariant ids == Inverted(DictOf(items), items[..i])
    {
      assert items[..i + 1][..i] == items[..i];
      ids := ids[items[i].1 := items[i].0];
    }
    assert items[..|items|] == items;
  }

  /** After inversion the table holds the old keys and every value. */
  lemma {:induction false} InvertedKeys(ids: map<string, string>, items: seq<(string, string)>, x: string)
    ensures x in Inverted(ids, items) <==> x in ids || exists i :: 0 <= i < |items| && items[i].1 == x
    decreases |items|
  {
    if |items| > 0 {
      var init := items[..|items| - 1];
      InvertedKeys(ids, init, x);
      if exists i :: 0 <= i < |init| && init[i].1 == x {
        var i :| 0 <= i < |init| && init[i].1 == x;
        assert items[i].1 == x;
      }
      if exists i :: 0 <= i < |items| && items[i].1 == x {
        var i :| 0 <= i < |items| && items[i].1 == x;
        if i < |init| {
          assert init[i].1 == x;
        }
      }
    }
  }

  /** Each value maps back to the key of the last item holding it. */
  lemma {:induction false} InvertedValue(ids: map<string, string>, items: seq<(string, string)>, i: nat)
    requires i < |items|
    requires forall j :: i < j < |items| ==> items[j].1 != items[i].1
    ensures items[i].1 in Inverted(ids, items) && Inverted(ids, items)[items[i].1] == items[i].0
    decreases |items|
  {
    if i < |items| - 1 {
      InvertedValue(ids, items[..|items| - 1], i);
    }
  }

  /** A key that is no item's value keeps what it mapped to. */
  lemma {:induction false} InvertedKey(ids: map<string, string>, items: seq<(string, string)>, k: string)
    requires k in ids
    requires forall j :: 0 <= j < |items| ==> items[j].1 != k
    ensures k in Inverted(ids, items) && Inverted(ids, items)[k] == ids[k]
    decreases |items|
  {
    if |items| > 0 {
      InvertedKey(ids, items[..|items| - 1], k);
    }
  }

  /**
   * Going there and back: for an id that is not itself a mapped-to id and whose target no
   * other id shares, the inverted table leads from the id to its target and back.
   */
  lemma InversionRoundTrip(items: seq<(string, string)>, i: nat)
    requires DistinctKeys(items) && i < |items|
    requires forall j :: 0 <= j < |items| ==> items[j].1 != items[i].0
    requires forall j :: 0 <= j < |items| && j != i ==> items[j].1 != items[i].1
    ensures var ids := InvertIdMappingsSpec(items);
      items[i].0 in ids && ids[items[i].0] == items[i].1 && ids[ids[items[i].0]] == items[i].0
  {
    InvertedKey(DictOf(items), items, items[i].0);
    InvertedValue(DictOf(items), items, i);
  }

  function InvertIdMappingsSpec(items: seq<(string, string)>): (ids: map<string, string>)
    requires DistinctKeys(items)
    ensures forall i :: 0 <= i < |items| ==> items[i].1 in ids
  {
    var ids := Inverted(DictOf(items), items);
    assert forall i :: 0 <= i < |items| ==> items[i].1 in ids by {
      forall i | 0 <= i < |items| ensures items[i].1 in ids {
        InvertedKeys(DictOf(items), items, items[i].1);
      }
    }
    ids
  }

  // ---------------------------------------------------------------------------------------
  // `no_desktop` and the desktop map

  /** `no_desktop`: one trailing `.desktop` removed. */
  function NoDesktop(id: string): (r: string)
    ensures EndsWith(id, ".desktop") ==> r + ".desktop" == id
    ensures !EndsWith(id, ".desktop") ==> r == id
  {
    if EndsWith(id, ".desktop") then id[..|id| - 8] else id
  }

  /** The suffix comes off exactly once: `a.desktop.desktop` keeps one. */
  lemma NoDesktopOnce(x: string)
    ensures NoDesktop(x + ".desktop") == x
  {
    var s := x + ".desktop";
    assert s[|s| - 8..] == ".desktop";
    assert s[..|s| - 8] == x;
  }

  const ApplicationsDir := "/usr/share/applications/"

  /** A file directly inside a directory has the file's name as its basename. */
  lemma BasenameOf(dir: string, id: string)
    requires |dir| > 0 && dir[|dir| - 1] == '/' && '/' !in id
    ensures Basename(dir + id) == id
  {
    var f := dir + id;
    var k := RFindChar(f, '/');
    assert f[|dir|..] == id;
  }

  /** The callback's test: a complete package shipping a file under the applications directory. */
  function DesktopEntry(c: Call, dir: string): Option<Entry> {
    match EntryOf(c)
    case Some(e) => if StartsWith(e.path, dir) then Some(Entry(Basename(e.path), e.pkg)) else None
    case None => None
  }

  /** The callback's view of the filelists: desktop files only, keyed by basename. */
  function DesktopEntries(calls: seq<Call>, dir: string): seq<Entry>
    decreases |calls|
  {
    if |calls| == 0 then []
    else
      var init := DesktopEntries(calls[..|calls| - 1], dir);
      match DesktopEntry(calls[|calls| - 1], dir)
      case Some(e) => init + [e]
      case None => init
  }

  /** One turn of the callback loop: the entries of the first `i + 1` calls. */
  lemma DesktopEntriesStep(calls: seq<Call>, dir: string, i: nat)
    requires i < |calls|
    ensures DesktopEntries(calls[..i + 1], dir) ==
      match DesktopEntry(calls[i], dir)
      case Some(e) => DesktopEntries(calls[..i], dir) + [e]
      case None => DesktopEntries(calls[..i], dir)
  {
    assert calls[..i + 1][..i] == calls[..i];
  }

  /** A call offering package `p` for desktop id `id`. */
  predicate DesktopCall(c: Call, dir: string, id: string, p: Nevra) {
    DesktopEntry(c, dir) == Some(Entry(id, p))
  }

  /** The desktop entries are exactly those of the desktop calls. */
  lemma {:induction false} DesktopEntriesMember(calls: seq<Call>, dir: string, e: Entry)
    ensures e in DesktopEntries(calls, dir) <==> exists i :: 0 <= i < |calls| && DesktopEntry(calls[i], dir) == Some(e)
    decreases |calls|, 1
  {
    if |calls| > 0 {
      DesktopEntriesMemberStep(calls, dir, e);
    }
  }

  lemma {:induction false} DesktopEntriesMemberStep(calls: seq<Call>, dir: string, e: Entry)
    requires |calls| > 0
    ensures e in DesktopEntries(calls, dir) <==> exists i :: 0 <= i < |calls| && DesktopEntry(calls[i], dir) == Some(e)
    decreases |calls|, 0
  {
    var init := calls[..|calls| - 1];
    DesktopEntriesMember(init, dir, e);
    DesktopEntriesLast(calls, dir, e);
    DesktopCallsLast(calls, init, dir, e);
  }

  /** The last call adds its entry, if it has one, to those of the calls before it. */
  lemma DesktopEntriesLast(calls: seq<Call>, dir: string, e: Entry)
    requires |calls| > 0
    ensures e in DesktopEntries(calls, dir) <==>
      e in DesktopEntries(calls[..|calls| - 1], dir) || DesktopEntry(calls[|calls| - 1], dir) == Some(e)
  {
  }

  /** A desktop call is among the calls before the last one, or is the last one. */
  lemma DesktopCallsLast(calls: seq<Call>, init: seq<Call>, dir: string, e: Entry)
    requires |calls| > 0 && init == calls[..|calls| - 1]
    ensures (exists i :: 0 <= i < |calls| && DesktopEntry(calls[i], dir) == Some(e)) <==>
      (exists i :: 0 <= i < |init| && DesktopEntry(init[i], dir) == Some(e)) ||
      DesktopEntry(calls[|calls| - 1], dir) == Some(e)
  {
    if exists i :: 0 <= i < |calls| && DesktopEntry(calls[i], dir) == Some(e) {
      var i :| 0 <= i < |calls| && DesktopEntry(calls[i], dir) == Some(e);
      if i < |init| {
        assert calls[i] == init[i];
      }
    }
    if exists i :: 0 <= i < |init| && DesktopEntry(init[i], dir) == Some(e) {
      var i :| 0 <= i < |init| && DesktopEntry(init[i], dir) == Some(e);
      assert calls[i] == init[i];
    }
  }

  /** The desktop map `make_desktop_map` computes: desktop id to the preferred package's name. */
  function DesktopMapOf(events: seq<Event>, labelCompare: (Evr, Evr) -> int): map<string, string> {
    Names(Best(DesktopEntries(Run(Initial, events).calls, ApplicationsDir), Cmp(labelCompare)))
  }

  /** The map's keys are exactly the basenames of the desktop files in the metadata. */
  lemma DesktopMapKeys(calls: seq<Call>, dir: string, cmp: (Nevra, Nevra) -> int, id: string)
    ensures id in Names(Best(DesktopEntries(calls, dir), cmp)) <==>
      exists i, p :: 0 <= i < |calls| && DesktopCall(calls[i], dir, id, p)
  {
    var ds := DesktopEntries(calls, dir);
    var best := Best(ds, cmp);
    assert Names(best).Keys == best.Keys;
    BestKeys(ds, cmp, id);
    if id in best {
      var k :| 0 <= k < |ds| && ds[k].path == id;
      assert ds[k] == Entry(id, ds[k].pkg);
      DesktopEntriesMember(calls, dir, Entry(id, ds[k].pkg));
      var i :| 0 <= i < |calls| && DesktopEntry(calls[i], dir) == Some(Entry(id, ds[k].pkg));
      assert DesktopCall(calls[i], dir, id, ds[k].pkg);
    }
    if exists i, p :: 0 <= i < |calls| && DesktopCall(calls[i], dir, id, p) {
      var i, p :| 0 <= i < |calls| && DesktopCall(calls[i], dir, id, p);
      DesktopEntriesMember(calls, dir, Entry(id, p));
      var k :| 0 <= k < |ds| && ds[k] == Entry(id, p);
      assert ds[k].path == id;
    }
  }

  /** The stored name is that of a package that ships the desktop file. */
  lemma DesktopMapFromCalls(calls: seq<Call>, dir: string, cmp: (Nevra, Nevra) -> int, id: string)
    requires id in Names(Best(DesktopEntries(calls, dir), cmp))
    ensures exists i, p ::
      0 <= i < |calls| && DesktopCall(calls[i], dir, id, p) && Names(Best(DesktopEntries(calls, dir), cmp))[id] == p.name
  {
    var ds := DesktopEntries(calls, dir);
    var best := Best(ds, cmp);
    BestFromEntries(ds, cmp, id);
    var k :| 0 <= k < |ds| && ds[k].path == id && ds[k].pkg == best[id];
    assert ds[k] == Entry(id, best[id]);
    DesktopEntriesMember(calls, dir, Entry(id, best[id]));
    var i :| 0 <= i < |calls| && DesktopEntry(calls[i], dir) == Some(Entry(id, best[id]));
    assert DesktopCall(calls[i], dir, id, best[id]);
  }

  /** A package that the comparison (`package_cmp`) prefers to every other shipper of the desktop file gets it. */
  lemma DesktopMapPrefers(calls: seq<Call>, dir: string, cmp: (Nevra, Nevra) -> int, id: string, p: Nevra)
    requires exists i :: 0 <= i < |calls| && DesktopCall(calls[i], dir, id, p)
    requires forall i, q :: 0 <= i < |calls| && DesktopCall(calls[i], dir, id, q) && q != p ==>
      cmp(p, q) < 0 && cmp(q, p) >= 0
    ensures id in Names(Best(DesktopEntries(calls, dir), cmp))
    ensures Names(Best(DesktopEntries(calls, dir), cmp))[id] == p.name
  {
    var ds := DesktopEntries(calls, dir);
    DesktopEntriesMember(calls, dir, Entry(id, p));
    forall j | 0 <= j < |ds| && ds[j].path == id && ds[j].pkg != p
      ensures cmp(p, ds[j].pkg) < 0 && cmp(ds[j].pkg, p) >= 0
    {
      var q := ds[j].pkg;
      assert ds[j] == Entry(id, q);
      DesktopEntriesMember(calls, dir, Entry(id, q));
      var i :| 0 <= i < |calls| && DesktopEntry(calls[i], dir) == Some(Entry(id, q));
      assert DesktopCall(calls[i], dir, id, q);
    }
    BestStrictWinner(ds, cmp, id, p);
  }

  /** `make_desktop_map`: the callback's fold over the desktop files, then the names. */
  method MakeDesktopMap(events: seq<Event>, labelCompare: (Evr, Evr) -> int) returns (r: Result<map<string, string>>)
    ensures Run(Initial, events).ok ==> r == Ok(DesktopMapOf(events, labelCompare))
    ensures !Run(Initial, events).ok ==> r == Err(KeyError)
  {
    var calls, ok := ForeachFile(events);
    if !ok {
      return Err(KeyError);
    }
    var ds: seq<Entry> := [];
    for i := 0 to |calls|
      invariant ds == DesktopEntries(calls[..i], ApplicationsDir)
    {
      DesktopEntriesStep(calls, ApplicationsDir, i);
      match EntryOf(calls[i])
      case Some(e) =>
        if StartsWith(e.path, ApplicationsDir) {
          ds := ds + [Entry(Basename(e.path), e.pkg)];
        }
      case None =>
    }
    assert calls[..|calls|] == calls;
    var best := Fold(ds, Cmp(labelCompare));
    var names := Finalize(best);
    return Ok(names);
  }

  // ---------------------------------------------------------------------------------------
  // `Application`, its derived ids and its ratings

  /** The six star buckets of an `out/ratings.json` entry, `star0` to `star5`. */
  const StarKeys: seq<string> := ["star0", "star1", "star2", "star3", "star4", "star5"]

  /** `None` read as 0, as the rating loop does. */
  function OrZero(o: Option<int>): int {
    o.GetOr(0)
  }

  /** How many star buckets, from `star0` on, the entry has before the first missing one. */
  function Reached(v: map<string, int>): (n: nat)
    ensures n <= 6
    ensures forall x :: 0 <= x < n ==> StarKeys[x] in v
    ensures n < 6 ==> StarKeys[n] !in v
  {
    if StarKeys[0] !in v then 0
    else if StarKeys[1] !in v then 1
    else if StarKeys[2] !in v then 2
    else if StarKeys[3] !in v then 3
    else if StarKeys[4] !in v then 4
    else if StarKeys[5] !in v then 5
    else 6
  }

  /** The star counts after the first `n` buckets of the entry have been added, `None` counting as 0. */
  function Bumped(stars: seq<Option<int>>, v: map<string, int>, n: nat): (r: seq<Option<int>>)
    requires |stars| == 6 && n <= 6
    requires forall x :: 0 <= x < n ==> StarKeys[x] in v
    ensures |r| == 6
  {
    seq(6, x requires 0 <= x < 6 => if x < n then Some(OrZero(stars[x]) + v[StarKeys[x]]) else stars[x])
  }

  /** Every bucket and the total present. */
  predicate Complete(v: map<string, int>) {
    Reached(v) == 6 && "total" in v
  }

  /**
   * The star counts after a sequence of entries, each added as the star loop adds it: the
   * buckets before its first missing one.
   */
  function Accumulated(stars: seq<Option<int>>, vs: seq<map<string, int>>): (r: seq<Option<int>>)
    requires |stars| == 6
    ensures |r| == 6
    decreases |vs|
  {
    if |vs| == 0 then stars
    else
      var v := vs[|vs| - 1];
      Bumped(Accumulated(stars, vs[..|vs| - 1]), v, Reached(v))
  }

  /** The sum of bucket `x` over complete entries. */
  function BucketSum(vs: seq<map<string, int>>, x: nat): int
    requires x < 6 && forall k :: 0 <= k < |vs| ==> Complete(vs[k])
    decreases |vs|
  {
    if |vs| == 0 then 0
    else
      var v := vs[|vs| - 1];
      assert Complete(v) && Reached(v) == 6;
      BucketSum(vs[..|vs| - 1], x) + v[StarKeys[x]]
  }

  /**
   * Several ratings reaching one application add up: starting from the unset buckets of a
   * new `Application`, each bucket holds the sum of that bucket over the entries, and is
   * unset only when there were none.
   */
  lemma {:induction false} AccumulatedSums(vs: seq<map<string, int>>, x: nat)
    requires forall k :: 0 <= k < |vs| ==> Complete(vs[k])
    requires x < 6
    ensures var r := Accumulated(seq(6, _ => None), vs);
      (|vs| == 0 ==> r[x] == None) && (|vs| > 0 ==> r[x] == Some(BucketSum(vs, x)))
    decreases |vs|
  {
    if |vs| > 0 {
      var init := vs[..|vs| - 1];
      assert forall k :: 0 <= k < |init| ==> init[k] == vs[k];
      AccumulatedSums(init, x);
    }
  }

  /** The record one application accumulates across the two appstream files and the ratings. */
  class Application {
    var name: Option<string>
    var description: Option<string>
    var homepage: Option<string>
    var package: Option<string>
    var extraPackages: Option<seq<string>>
    var fedoraId: Option<string>
    var flathubId: Option<string>
    var odrsId: Option<string>
    var starTotal: Option<int>
    var stars: seq<Option<int>>

    /** Six star buckets. */
    predicate Valid()
      reads this
    {
      |stars| == 6
    }

    constructor()
      ensures Valid()
      ensures name.None? && description.None? && homepage.None? && package.None? && extraPackages.None?
      ensures fedoraId.None? && flathubId.None? && odrsId.None? && starTotal.None?
      ensures stars == seq(6, _ => None)
    {
      name := None;
      description := None;
      homepage := None;
      package := None;
      extraPackages := None;
      fedoraId := None;
      flathubId := None;
      odrsId := None;
      starTotal := None;
      stars := seq(6, _ => None);
    }

    /** `canon_id`: the Flathub id, else the Fedora id, else the ODRS id. */
    function CanonId(): (r: Option<string>)
      reads this
      ensures r.Some? <==> flathubId.Some? || fedoraId.Some? || odrsId.Some?
      ensures flathubId.Some? ==> r == flathubId
      ensures flathubId.None? && fedoraId.Some? ==> r == fedoraId
      ensures flathubId.None? && fedoraId.None? ==> r == odrsId
    {
      if flathubId.Some? then flathubId
      else if fedoraId.Some? then fedoraId
      else odrsId
    }

    /**
     * `display_name`: the name, else the ODRS id without `.desktop`; with neither a name nor
     * a non-empty ODRS id the `assert` fails.
     */
    function DisplayName(): (r: Result<string>)
      reads this
      ensures name.Some? ==> r == Ok(name.value)
      ensures name.None? && (odrsId.None? || odrsId.value == "") ==> r == Err(AssertionError)
      ensures name.None? && odrsId.Some? && odrsId.value != "" ==>
        r.Ok? && (EndsWith(odrsId.value, ".desktop") ==> r.value + ".desktop" == odrsId.value) &&
        (!EndsWith(odrsId.value, ".desktop") ==> r.value == odrsId.value)
    {
      if name.Some? then Ok(name.value)
      else if odrsId.None? || odrsId.value == "" then Err(AssertionError)
      else Ok(NoDesktop(odrsId.value))
    }

    /**
     * The star loop: each bucket of the entry is added to the application's, `None` read
     * as 0, then the total. A missing key raises `KeyError` after the buckets before it
     * have been added.
     */
    method AddStars(v: map<string, int>) returns (ok: bool)
      requires Valid()
      modifies this
      ensures Valid()
      ensures ok <==> Complete(v)
      ensures stars == Bumped(old(stars), v, Reached(v))
      ensures starTotal == if ok then Some(OrZero(old(starTotal)) + v["total"]) else old(starTotal)
      ensures name == old(name) && description == old(description) && homepage == old(homepage)
      ensures package == old(package) && extraPackages == old(extraPackages)
      ensures fedoraId == old(fedoraId) && flathubId == old(flathubId) && odrsId == old(odrsId)
    {
      var x := 0;
      while x < 6
        invariant 0 <= x <= Reached(v) && Valid()
        invariant stars == Bumped(old(stars), v, x)
        invariant starTotal == old(starTotal)
        invariant name == old(name) && description == old(description) && homepage == old(homepage)
        invariant package == old(package) && extraPackages == old(extraPackages)
        invariant fedoraId == old(fedoraId) && flathubId == old(flathubId) && odrsId == old(odrsId)
      {
        if StarKeys[x] !in v {
          return false;
        }
        stars := stars[x := Some(OrZero(stars[x]) + v[StarKeys[x]])];
        x := x + 1;
      }
      if "total" !in v {
        return false;
      }
      starTotal := Some(OrZero(starTotal) + v["total"]);
      ok := true;
    }

    /**
     * The body of the ratings loop once its application is found: take the package from
     * the desktop map when there is none yet, record the ODRS id, add the stars.
     */
    method Rate(k: string, v: map<string, int>, desktopMap: map<string, string>) returns (ok: bool)
      requires Valid()
      modifies this
      ensures Valid()
      ensures package == if old(package).None? && k + ".desktop" in desktopMap && desktopMap[k + ".desktop"] != ""
        then Some(desktopMap[k + ".desktop"]) else old(package)
      ensures odrsId == Some(k)
      ensures ok <==> Complete(v)
      ensures stars == Bumped(old(stars), v, Reached(v))
      ensures starTotal == if ok then Some(OrZero(old(starTotal)) + v["total"]) else old(starTotal)
      ensures name == old(name) && description == old(description) && homepage == old(homepage)
      ensures extraPackages == old(extraPackages) && fedoraId == old(fedoraId) && flathubId == old(flathubId)
    {
      if package.None? {
        var key := k + ".desktop";
        if key in desktopMap && desktopMap[key] != "" {
          package := Some(desktopMap[key]);
        }
      }
      odrsId := Some(k);
      ok := AddStars(v);
    }
  }

  /**
   * The application a rating goes to: the one registered under its id, else the one
   * registered under the id the mapping table gives for it, else a new one (`None`).
   */
  function RatingTarget<T>(ids: map<string, T>, mappings: map<string, string>, k: string): (r: Option<T>)
    ensures k in ids ==> r == Some(ids[k])
    ensures k !in ids && k in mappings && mappings[k] in ids ==> r == Some(ids[mappings[k]])
    ensures r.None? <==> k !in ids && (k !in mappings || mappings[k] !in ids)
  {
    if k in ids then Some(ids[k])
    else if k in mappings && mappings[k] in ids then Some(ids[mappings[k]])
    else None
  }

  /**
   * Through the inverted table, a rating filed under the id an entry maps to reaches the
   * application registered under the entry's own id, when no other entry maps there.
   */
  lemma RatingThroughInversion<T>(ids: map<string, T>, items: seq<(string, string)>, i: nat)
    requires DistinctKeys(items) && i < |items|
    requires forall j :: 0 <= j < |items| && j != i ==> items[j].1 != items[i].1
    requires items[i].1 !in ids && items[i].0 in ids
    ensures RatingTarget(ids, InvertIdMappingsSpec(items), items[i].1) == Some(ids[items[i].0])
  {
    InvertedValue(DictOf(items), items, i);
  }

  /**
   * One pass of the ratings loop per rating, over the id table: `targets[i]` is the
   * application rating `i` reaches and `tables[i]` the table before it. The application is
   * the one `RatingTarget` finds under the rating's id without `.desktop` (else a new one),
   * and the table then has that id registered to it: once when it was found through the
   * mapping table and once as its ODRS id, two writes of the same key.
   */
  ghost predicate RatingTrace<T, V>(ids: map<string, T>, mappings: map<string, string>, ratings: seq<(string, V)>,
                                    tables: seq<map<string, T>>, targets: seq<T>)
  {
    |targets| <= |ratings| && |tables| == |targets| + 1 && tables[0] == ids &&
    forall i :: 0 <= i < |targets| ==> RatingStep(mappings, ratings[i].0, tables[i], tables[i + 1], targets[i])
  }

  /** One rating with id `id` moves the table from `before` to `after`, reaching `t`. */
  ghost predicate RatingStep<T>(mappings: map<string, string>, id: string, before: map<string, T>, after: map<string, T>, t: T) {
    var k := NoDesktop(id);
    (RatingTarget(before, mappings, k).Some? ==> t == RatingTarget(before, mappings, k).value) &&
    after == before[k := t]
  }

  /** The trace extended by one more rating, reaching `t`. */
  lemma RatingTraceStep<T, V>(ids: map<string, T>, mappings: map<string, string>, ratings: seq<(string, V)>,
                              tables: seq<map<string, T>>, targets: seq<T>, after: map<string, T>, t: T)
    requires RatingTrace(ids, mappings, ratings, tables, targets) && |targets| < |ratings|
    requires RatingStep(mappings, ratings[|targets|].0, tables[|targets|], after, t)
    ensures RatingTrace(ids, mappings, ratings, tables + [after], targets + [t])
  {
    var n := |targets|;
    var tables', targets' := tables + [after], targets + [t];
    forall i | 0 <= i < n + 1
      ensures RatingStep(mappings, ratings[i].0, tables'[i], tables'[i + 1], targets'[i])
    {
      if i < n {
        assert tables'[i] == tables[i] && tables'[i + 1] == tables[i + 1] && targets'[i] == targets[i];
      }
    }
  }

  /** Once a rating has registered its application, every later table keeps it under that id. */
  lemma {:induction false} StaysRegistered<T, V>(ids: map<string, T>, mappings: map<string, string>, ratings: seq<(string, V)>,
                                                 tables: seq<map<string, T>>, targets: seq<T>, i: nat, m: nat)
    requires RatingTrace(ids, mappings, ratings, tables, targets)
    requires i < m <= |targets|
    ensures NoDesktop(ratings[i].0) in tables[m] && tables[m][NoDesktop(ratings[i].0)] == targets[i]
    decreases m
  {
    if m > i + 1 {
      StaysRegistered(ids, mappings, ratings, tables, targets, i, m - 1);
      var k := NoDesktop(ratings[i].0);
      var k' := NoDesktop(ratings[m - 1].0);
      assert RatingStep(mappings, ratings[m - 1].0, tables[m - 1], tables[m], targets[m - 1]);
      if k' == k {
        assert RatingTarget(tables[m - 1], mappings, k) == Some(targets[i]);
      }
    }
  }

  /**
   * Two ratings whose ids agree once `.desktop` is dropped (`org.x.Foo` and
   * `org.x.Foo.desktop`) reach the same application, so their stars add up on it.
   */
  lemma SameIdSameApplication<T, V>(ids: map<string, T>, mappings: map<string, string>, ratings: seq<(string, V)>,
                                    tables: seq<map<string, T>>, targets: seq<T>, i: nat, j: nat)
    requires RatingTrace(ids, mappings, ratings, tables, targets)
    requires i < j < |targets| && NoDesktop(ratings[i].0) == NoDesktop(ratings[j].0)
    ensures targets[j] == targets[i]
  {
    StaysRegistered(ids, mappings, ratings, tables, targets, i, j);
    assert RatingStep(mappings, ratings[j].0, tables[j], tables[j + 1], targets[j]);
    assert RatingTarget(tables[j], mappings, NoDesktop(ratings[j].0)) == Some(targets[i]);
  }

  /** After the loop every rating's id, without `.desktop`, is registered to the application it reached. */
  lemma RegisteredAtEnd<T, V>(ids: map<string, T>, mappings: map<string, string>, ratings: seq<(string, V)>,
                              tables: seq<map<string, T>>, targets: seq<T>, i: nat)
    requires RatingTrace(ids, mappings, ratings, tables, targets)
    requires i < |targets|
    ensures var last := tables[|targets|]; NoDesktop(ratings[i].0) in last && last[NoDesktop(ratings[i].0)] == targets[i]
  {
    StaysRegistered(ids, mappings, ratings, tables, targets, i, |targets|);
  }

  /** The star entries of those of the first `|targets|` ratings that reached `a`, in order. */
  ghost function RatingsOf(a: Application, targets: seq<Application>, ratings: seq<(string, map<string, int>)>): seq<map<string, int>>
    requires |targets| <= |ratings|
    decreases |targets|
  {
    if |targets| == 0 then []
    else
      var n := |targets| - 1;
      RatingsOf(a, targets[..n], ratings) + (if targets[n] == a then [ratings[n].1] else [])
  }

  /** The total after a sequence of entries, each added, `None` counting as 0, only when it is complete. */
  function TotalAfter(total: Option<int>, vs: seq<map<string, int>>): (r: Option<int>)
    ensures |vs| == 0 ==> r == total
    ensures (exists k :: 0 <= k < |vs| && Complete(vs[k])) ==> r.Some?
    decreases |vs|
  {
    if |vs| == 0 then total
    else
      var v := vs[|vs| - 1];
      var before := TotalAfter(total, vs[..|vs| - 1]);
      if Complete(v) then Some(OrZero(before) + v["total"]) else before
  }

  lemma RatingsOfStep(targets: seq<Application>, t: Application, ratings: seq<(string, map<string, int>)>)
    requires |targets| < |ratings|
    ensures RatingsOf(t, targets + [t], ratings) == RatingsOf(t, targets, ratings) + [ratings[|targets|].1]
    ensures forall a :: a != t ==> RatingsOf(a, targets + [t], ratings) == RatingsOf(a, targets, ratings)
  {
    assert (targets + [t])[..|targets|] == targets;
  }

  lemma {:induction false} RatingsOfNone(a: Application, targets: seq<Application>, ratings: seq<(string, map<string, int>)>)
    requires |targets| <= |ratings|
    requires forall j :: 0 <= j < |targets| ==> targets[j] != a
    ensures RatingsOf(a, targets, ratings) == []
    decreases |targets|
  {
    if |targets| > 0 {
      RatingsOfNone(a, targets[..|targets| - 1], ratings);
    }
  }

  /** One more entry bumps the star counts the earlier entries left. */
  lemma AccumulatedStep(stars: seq<Option<int>>, vs: seq<map<string, int>>, v: map<string, int>)
    requires |stars| == 6
    ensures Accumulated(stars, vs + [v]) == Bumped(Accumulated(stars, vs), v, Reached(v))
  {
    var ws := vs + [v];
    assert ws[|ws| - 1] == v && ws[..|ws| - 1] == vs;
  }

  /** One more entry adds its total to the one the earlier entries left, when it is complete. */
  lemma TotalAfterStep(total: Option<int>, vs: seq<map<string, int>>, v: map<string, int>)
    ensures TotalAfter(total, vs + [v]) == if Complete(v) then Some(OrZero(TotalAfter(total, vs)) + v["total"]) else TotalAfter(total, vs)
  {
    var ws := vs + [v];
    assert ws[|ws| - 1] == v && ws[..|ws| - 1] == vs;
  }

  /** The first `n` ratings are complete. */
  ghost predicate CompleteUpTo(ratings: seq<(string, map<string, int>)>, n: nat)
    requires n <= |ratings|
  {
    forall j :: 0 <= j < n ==> Complete(ratings[j].1)
  }

  /** An incomplete rating means not all of them are complete. */
  lemma IncompleteStops(ratings: seq<(string, map<string, int>)>, m: nat)
    requires m < |ratings| && !Complete(ratings[m].1)
    ensures !CompleteUpTo(ratings, |ratings|)
  {
  }

  lemma CompleteUpToStep(ratings: seq<(string, map<string, int>)>, n: nat)
    requires n < |ratings| && CompleteUpTo(ratings, n) && Complete(ratings[n].1)
    ensures CompleteUpTo(ratings, n + 1)
  {
  }

  /** `Rate` seen from the ledger of ratings the application has taken so far. */
  method RateRecorded(a: Application, k: string, v: map<string, int>, desktopMap: map<string, string>,
                      ghost stars: seq<Option<int>>, ghost total: Option<int>, ghost taken: seq<map<string, int>>)
    returns (ok: bool)
    requires a.Valid() && |stars| == 6
    requires a.stars == Accumulated(stars, taken) && a.starTotal == TotalAfter(total, taken)
    modifies a
    ensures a.Valid() && a.odrsId == Some(k) && (ok <==> Complete(v))
    ensures a.stars == Accumulated(stars, taken + [v]) && a.starTotal == TotalAfter(total, taken + [v])
  {
    ok := a.Rate(k, v, desktopMap);
    AccumulatedStep(stars, taken, v);
    TotalAfterStep(total, taken, v);
  }

  /**
   * The lookup at the head of the ratings loop: the application registered under `k`, else
   * the one under the id the mapping table gives, which is then registered under `k` as
   * well, else a new `Application`.
   */
  method FindApplication(table: map<string, Application>, mappings: map<string, string>, k: string)
    returns (table': map<string, Application>, a: Application)
    ensures RatingTarget(table, mappings, k).Some? ==> a == RatingTarget(table, mappings, k).value
    ensures RatingTarget(table, mappings, k).None? ==>
      fresh(a) && a.Valid() && a.stars == seq(6, _ => None) && a.starTotal == None
    ensures table' == if k !in table && RatingTarget(table, mappings, k).Some? then table[k := a] else table
  {
    table' := table;
    if k in table {
      a := table[k];
    } else {
      if k in mappings && mappings[k] in table {
        a := table[mappings[k]];
        table' := table[k := a];
      } else {
        a := new Application();
      }
    }
  }

  /**
   * Every application in `start` holds its starting stars and total plus the stars and
   * total of those of the first `|targets|` ratings that reached it.
   */
  ghost predicate Tallied(start: map<Application, (seq<Option<int>>, Option<int>)>, targets: seq<Application>,
                          ratings: seq<(string, map<string, int>)>)
    reads start.Keys
  {
    |targets| <= |ratings| &&
    forall b :: b in start ==>
      |start[b].0| == 6 && b.Valid() &&
      b.stars == Accumulated(start[b].0, RatingsOf(b, targets, ratings)) &&
      b.starTotal == TotalAfter(start[b].1, RatingsOf(b, targets, ratings))
  }

  /**
   * The bookkeeping of the ratings loop after `|targets|` ratings: the trace so far; every
   * application the table or the trace names is in `start`; the applications of `init`,
   * the ones there before the loop, keep their starting values in `start`, and the others
   * start from unset stars and total; a new application differs from those before it.
   */
  ghost predicate Trail(ids: map<string, Application>, mappings: map<string, string>, ratings: seq<(string, map<string, int>)>,
                        table: map<string, Application>, tables: seq<map<string, Application>>, targets: seq<Application>,
                        start: map<Application, (seq<Option<int>>, Option<int>)>,
                        init: map<Application, (seq<Option<int>>, Option<int>)>)
  {
    RatingTrace(ids, mappings, ratings, tables, targets) && table == tables[|targets|] &&
    (forall key :: key in table ==> table[key] in start) &&
    (forall j :: 0 <= j < |targets| ==> targets[j] in start) &&
    (forall b :: b in init ==> b in start && start[b] == init[b]) &&
    (forall b :: b in start && b !in init ==> start[b] == (seq(6, _ => None), None)) &&
    (forall j :: 0 <= j < |targets| && RatingTarget(tables[j], mappings, NoDesktop(ratings[j].0)).None? ==>
      targets[j] !in init) &&
    (forall j, l :: 0 <= l < j < |targets| && RatingTarget(tables[j], mappings, NoDesktop(ratings[j].0)).None? ==>
      targets[l] != targets[j])
  }

  lemma TrailStep(ids: map<string, Application>, mappings: map<string, string>, ratings: seq<(string, map<string, int>)>,
                  table: map<string, Application>, tables: seq<map<string, Application>>, targets: seq<Application>,
                  start: map<Application, (seq<Option<int>>, Option<int>)>,
                  init: map<Application, (seq<Option<int>>, Option<int>)>,
                  table': map<string, Application>, a: Application, start': map<Application, (seq<Option<int>>, Option<int>)>)
    requires Trail(ids, mappings, ratings, table, tables, targets, start, init) && |targets| < |ratings|
    requires RatingStep(mappings, ratings[|targets|].0, table, table', a)
    requires forall key :: key in table' ==> table'[key] in start'
    requires a in start' && forall b :: b in start ==> b in start' && start'[b] == start[b]
    requires forall b :: b in start' && b !in start ==> start'[b] == (seq(6, _ => None), None)
    requires RatingTarget(table, mappings, NoDesktop(ratings[|targets|].0)).None? ==> a !in start
    ensures Trail(ids, mappings, ratings, table', tables + [table'], targets + [a], start', init)
  {
    RatingTraceStep(ids, mappings, ratings, tables, targets, table', a);
    var tables', targets' := tables + [table'], targets + [a];
    assert forall j :: 0 <= j < |targets| ==> tables'[j] == tables[j] && targets'[j] == targets[j];
    assert tables'[|targets|] == table && targets'[|targets|] == a;
    forall j, l | 0 <= l < j < |targets'| && RatingTarget(tables'[j], mappings, NoDesktop(ratings[j].0)).None?
      ensures targets'[l] != targets'[j]
    {
      if j == |targets| {
        assert targets'[l] in start;
      }
    }
  }

  /** The tally after one more rating, which reached `a`, given each application's counts in the current state. */
  lemma TalliedStep(start: map<Application, (seq<Option<int>>, Option<int>)>, targets: seq<Application>,
                    ratings: seq<(string, map<string, int>)>, a: Application)
    requires |targets| < |ratings| && a in start
    requires forall b :: b in start && b != a ==>
      |start[b].0| == 6 && b.Valid() &&
      b.stars == Accumulated(start[b].0, RatingsOf(b, targets, ratings)) &&
      b.starTotal == TotalAfter(start[b].1, RatingsOf(b, targets, ratings))
    requires |start[a].0| == 6 && a.Valid()
    requires a.stars == Accumulated(start[a].0, RatingsOf(a, targets, ratings) + [ratings[|targets|].1])
    requires a.starTotal == TotalAfter(start[a].1, RatingsOf(a, targets, ratings) + [ratings[|targets|].1])
    ensures Tallied(start, targets + [a], ratings)
  {
    RatingsOfStep(targets, a, ratings);
  }

  /**
   * `FindApplication` over the bookkeeping: a new application joins `start` with unset stars
   * and total, which is what it holds, as it has taken no rating yet.
   */
  method Locate(table: map<string, Application>, mappings: map<string, string>, k: string,
                ghost targets: seq<Application>, ratings: seq<(string, map<string, int>)>,
                ghost start: map<Application, (seq<Option<int>>, Option<int>)>)
    returns (table': map<string, Application>, a: Application, ghost start': map<Application, (seq<Option<int>>, Option<int>)>)
    requires Tallied(start, targets, ratings)
    requires forall key :: key in table ==> table[key] in start
    requires forall j :: 0 <= j < |targets| ==> targets[j] in start
    ensures RatingTarget(table, mappings, k).Some? ==> a == RatingTarget(table, mappings, k).value
    ensures table' == if k !in table && RatingTarget(table, mappings, k).Some? then table[k := a] else table
    ensures Tallied(start', targets, ratings)
    ensures forall key :: key in table' ==> table'[key] in start'
    ensures a in start' && forall b :: b in start ==> b in start' && start'[b] == start[b]
    ensures forall b :: b in start' && b !in start ==> fresh(b) && start'[b] == (seq(6, _ => None), None)
    ensures RatingTarget(table, mappings, k).None? ==> a !in start
  {
    table', a := FindApplication(table, mappings, k);
    start' := start;
    if RatingTarget(table, mappings, k).None? {
      RatingsOfNone(a, targets, ratings);
      start' := start[a := (seq(6, _ => None), None)];
    }
  }

  /** Registering `a` under `k` over a table that may already hold that registration. */
  lemma RegisteredOver<K, T>(table: map<K, T>, table': map<K, T>, k: K, a: T)
    requires table' == table || table' == table[k := a]
    ensures table'[k := a] == table[k := a]
  {
  }

  /** `RateRecorded` on one application of the ledger, which keeps the ledger tallied. */
  method RateTallied(a: Application, k: string, v: map<string, int>, desktopMap: map<string, string>,
                     ghost targets: seq<Application>, ratings: seq<(string, map<string, int>)>,
                     ghost start: map<Application, (seq<Option<int>>, Option<int>)>)
    returns (ok: bool)
    requires Tallied(start, targets, ratings) && a in start && |targets| < |ratings| && v == ratings[|targets|].1
    modifies a
    ensures Tallied(start, targets + [a], ratings)
    ensures a.odrsId == Some(k) && (ok <==> Complete(v))
  {
    ok := RateRecorded(a, k, v, desktopMap, start[a].0, start[a].1, RatingsOf(a, targets, ratings));
    TalliedStep(start, targets, ratings, a);
  }

  /**
   * One pass of the ratings loop, for rating `i`: find its application `a`, rate it and
   * register it under its ODRS id. `start` gains `a` when it is a new one.
   */
  method RateStep(ratings: seq<(string, map<string, int>)>, i: nat, ghost ids: map<string, Application>,
                  mappings: map<string, string>, desktopMap: map<string, string>, table: map<string, Application>,
                  ghost tables: seq<map<string, Application>>, ghost targets: seq<Application>,
                  ghost start: map<Application, (seq<Option<int>>, Option<int>)>,
                  ghost init: map<Application, (seq<Option<int>>, Option<int>)>)
    returns (table': map<string, Application>, ok: bool, ghost a: Application,
             ghost start': map<Application, (seq<Option<int>>, Option<int>)>)
    requires i == |targets| < |ratings|
    requires Trail(ids, mappings, ratings, table, tables, targets, start, init) && Tallied(start, targets, ratings)
    modifies start.Keys
    ensures Trail(ids, mappings, ratings, table', tables + [table'], targets + [a], start', init)
    ensures Tallied(start', targets + [a], ratings)
    ensures ok <==> Complete(ratings[i].1)
    ensures forall b :: b in start' ==> b in start || fresh(b)
  {
    var k := NoDesktop(ratings[i].0);
    var app;
    table', app, start' := Locate(table, mappings, k, targets, ratings, start);
    ok := RateTallied(app, k, ratings[i].1, desktopMap, targets, ratings, start');
    RegisteredOver(table, table', k, app);
    table' := table'[app.odrsId.value := app];
    a := app;
    TrailStep(ids, mappings, ratings, table, tables, targets, start, init, table', a, start');
  }

  /** What the bookkeeping says about the applications once the loop stops. */
  lemma TrailEnds(ids: map<string, Application>, mappings: map<string, string>, ratings: seq<(string, map<string, int>)>,
                  table: map<string, Application>, tables: seq<map<string, Application>>, targets: seq<Application>,
                  start: map<Application, (seq<Option<int>>, Option<int>)>,
                  init: map<Application, (seq<Option<int>>, Option<int>)>)
    requires Trail(ids, mappings, ratings, table, tables, targets, start, init) && Tallied(start, targets, ratings)
    requires forall b :: b in init <==> b in ids.Values
    ensures forall i :: 0 <= i < |targets| ==> targets[i] in start && targets[i].Valid()
    ensures forall i :: 0 <= i < |targets| && RatingTarget(tables[i], mappings, NoDesktop(ratings[i].0)).None? ==>
      targets[i] !in ids.Values
    ensures forall a :: a in ids.Values ==>
      |init[a].0| == 6 && a.stars == Accumulated(init[a].0, RatingsOf(a, targets, ratings)) &&
      a.starTotal == TotalAfter(init[a].1, RatingsOf(a, targets, ratings))
    ensures forall i :: 0 <= i < |targets| && targets[i] !in ids.Values ==>
      targets[i].stars == Accumulated(seq(6, _ => None), RatingsOf(targets[i], targets, ratings)) &&
      targets[i].starTotal == TotalAfter(None, RatingsOf(targets[i], targets, ratings))
  {
  }

  /** The loop of `RateAll` over its bookkeeping. */
  method RateLoop(ratings: seq<(string, map<string, int>)>, ids: map<string, Application>,
                  mappings: map<string, string>, desktopMap: map<string, string>,
                  ghost init: map<Application, (seq<Option<int>>, Option<int>)>)
    returns (table: map<string, Application>, ok: bool, ghost tables: seq<map<string, Application>>,
             ghost targets: seq<Application>, ghost start: map<Application, (seq<Option<int>>, Option<int>)>)
    requires Trail(ids, mappings, ratings, ids, [ids], [], init, init) && Tallied(init, [], ratings)
    modifies init.Keys
    ensures Trail(ids, mappings, ratings, table, tables, targets, start, init) && Tallied(start, targets, ratings)
    ensures forall b :: b in start ==> b in init || fresh(b)
    ensures ok <==> |targets| == |ratings| && CompleteUpTo(ratings, |ratings|)
    ensures !ok ==> 0 < |targets| && CompleteUpTo(ratings, |targets| - 1) && !Complete(ratings[|targets| - 1].1)
  {
    table := ids;
    tables := [ids];
    targets := [];
    start := init;
    var i := 0;
    ok := true;
    while i < |ratings| && ok
      invariant 0 <= i <= |ratings| && |targets| == i
      invariant ok ==> CompleteUpTo(ratings, i)
      invariant !ok ==> 0 < i && CompleteUpTo(ratings, i - 1) && !Complete(ratings[i - 1].1)
      invariant Trail(ids, mappings, ratings, table, tables, targets, start, init) && Tallied(start, targets, ratings)
      invariant forall b :: b in start ==> b in init || fresh(b)
    {
      ghost var a;
      table, ok, a, start := RateStep(ratings, i, ids, mappings, desktopMap, table, tables, targets, start, init);
      tables, targets := tables + [table], targets + [a];
      if ok {
        CompleteUpToStep(ratings, i);
      }
      i := i + 1;
    }
    if !ok {
      IncompleteStops(ratings, i - 1);
    }
  }

  /**
   * The ratings loop: each rating goes to the application `RatingTarget` finds under its id
   * without `.desktop`, or to a new one, and that id is registered to it; then its stars are
   * added there. A rating missing a bucket or the total raises `KeyError` after its
   * registration and its earlier buckets, ending the loop. Each application, old or new,
   * ends with the stars and total of exactly the ratings that reached it.
   */
  method RateAll(ratings: seq<(string, map<string, int>)>, ids: map<string, Application>,
                 mappings: map<string, string>, desktopMap: map<string, string>)
    returns (table: map<string, Application>, ok: bool, ghost tables: seq<map<string, Application>>,
             ghost targets: seq<Application>)
    requires forall a :: a in ids.Values ==> a.Valid()
    modifies ids.Values
    ensures RatingTrace(ids, mappings, ratings, tables, targets) && table == tables[|targets|]
    ensures ok <==> |targets| == |ratings| && CompleteUpTo(ratings, |ratings|)
    ensures !ok ==> 0 < |targets| && CompleteUpTo(ratings, |targets| - 1) && !Complete(ratings[|targets| - 1].1)
    ensures forall i :: 0 <= i < |targets| ==> (targets[i] in ids.Values || fresh(targets[i])) && targets[i].Valid()
    ensures forall i :: 0 <= i < |targets| && RatingTarget(tables[i], mappings, NoDesktop(ratings[i].0)).None? ==>
      targets[i] !in ids.Values
    ensures forall i, j :: 0 <= j < i < |targets| && RatingTarget(tables[i], mappings, NoDesktop(ratings[i].0)).None? ==>
      targets[j] != targets[i]
    ensures forall a :: a in ids.Values ==>
      old(a.Valid()) && a.stars == Accumulated(old(a.stars), RatingsOf(a, targets, ratings)) &&
      a.starTotal == TotalAfter(old(a.starTotal), RatingsOf(a, targets, ratings))
    ensures forall i :: 0 <= i < |targets| && targets[i] !in ids.Values ==>
      targets[i].stars == Accumulated(seq(6, _ => None), RatingsOf(targets[i], targets, ratings)) &&
      targets[i].starTotal == TotalAfter(None, RatingsOf(targets[i], targets, ratings))
  {
    ghost var init := map b | b in ids.Values :: (b.stars, b.starTotal);
    assert forall b :: b in ids.Values ==> init[b] == (old(b.stars), old(b.starTotal));
    ghost var start;
    table, ok, tables, targets, start := RateLoop(ratings, ids, mappings, desktopMap, init);
    TrailEnds(ids, mappings, ratings, table, tables, targets, start, init);
  }

  // ---------------------------------------------------------------------------------------
  // the summary

  /** Which counter an application bumps: 0 in Fedora appstream, 1 packaged only, 2 Flathub only, 3 reviews only. */
  function Category(a: Application): (c: nat)
    reads a
    ensures c < 4
    ensures c == 0 <==> a.fedoraId.Some?
    ensures c == 1 <==> a.fedoraId.None? && a.package.Some?
    ensures c == 2 <==> a.fedoraId.None? && a.package.None? && a.flathubId.Some?
    ensures c == 3 <==> a.fedoraId.None? && a.package.None? && a.flathubId.None?
  {
    if a.fedoraId.Some? then 0
    else if a.package.Some? then 1
    else if a.flathubId.Some? then 2
    else 3
  }

  /** How many of the applications fall in a category. */
  function CountIn(apps: seq<Application>, c: nat): nat
    reads apps
    decreases |apps|
  {
    if |apps| == 0 then 0
    else CountIn(apps[..|apps| - 1], c) + (if Category(apps[|apps| - 1]) == c then 1 else 0)
  }

  /** The four categories split the applications: their counts add up to the number of applications. */
  lemma {:induction false} CountsPartition(apps: seq<Application>)
    ensures CountIn(apps, 0) + CountIn(apps, 1) + CountIn(apps, 2) + CountIn(apps, 3) == |apps|
    decreases |apps|
  {
    if |apps| > 0 {
      var init := apps[..|apps| - 1];
      CountsPartition(init);
      assert forall k :: 0 <= k < |init| ==> init[k] == apps[k];
    }
  }

  /** The four counters and the `Total` row of the summary. */
  datatype Summary = Summary(fedoraAppstream: nat, noAppstream: nat, flathub: nat, reviewOnly: nat, total: nat)

  /** The counting loop over the applications, then `Total` as the sum of the four. */
  method Summarize(apps: seq<Application>) returns (s: Summary)
    ensures s.fedoraAppstream == CountIn(apps, 0) && s.noAppstream == CountIn(apps, 1)
    ensures s.flathub == CountIn(apps, 2) && s.reviewOnly == CountIn(apps, 3)
    ensures s.total == s.fedoraAppstream + s.noAppstream + s.flathub + s.reviewOnly
    ensures s.total == |apps|
  {
    var fedoraAppstream, noAppstream, flathub, reviewOnly := 0, 0, 0, 0;
    for i := 0 to |apps|
      invariant fedoraAppstream == CountIn(apps[..i], 0) && noAppstream == CountIn(apps[..i], 1)
      invariant flathub == CountIn(apps[..i], 2) && reviewOnly == CountIn(apps[..i], 3)
      invariant fedoraAppstream + noAppstream + flathub + reviewOnly == i
    {
      assert apps[..i + 1][..i] == apps[..i];
      var a := apps[i];
      if a.fedoraId.Some? {
        fedoraAppstream := fedoraAppstream + 1;
      } else if a.package.Some? {
        noAppstream := noAppstream + 1;
      } else if a.flathubId.Some? {
        flathub := flathub + 1;
      } else {
        reviewOnly := reviewOnly + 1;
      }
    }
    assert apps[..|apps|] == apps;
    s := Summary(fedoraAppstream, noAppstream, flathub, reviewOnly,
      fedoraAppstream + noAppstream + flathub + reviewOnly);
  }

  // ---------------------------------------------------------------------------------------
  // `dict_to_list`

  /** One package of the `flatpak-report` output: the applications using it, overall and among the top ones. */
  datatype UsedBy = UsedBy(all: seq<string>, top: Option<seq<string>>)

  /** One row of `application-packages.json`. */
  datatype PackageRow = PackageRow(package: string, all: seq<string>, allCount: nat, top: Option<seq<string>>, topCount: Option<nat>)

  function Itself(s: string): string {
    s
  }

  /** `sorted(xs)` for a list of strings. */
  function SortedNames(xs: seq<string>): (r: seq<string>)
    ensures multiset(r) == multiset(xs) && |r| == |xs|
    ensures SortedBy(r, Itself, StringLe())
  {
    StringLeTotal();
    SortBySorted(xs, Itself, StringLe());
    var r := SortBy(xs, Itself, StringLe());
    assert |r| == |multiset(r)|;
    r
  }

  /** The row built for one package: both lists sorted, each with its length. */
  function RowOf(p: string, i: UsedBy): (r: PackageRow)
    ensures r.package == p && r.allCount == |i.all|
    ensures multiset(r.all) == multiset(i.all) && SortedBy(r.all, Itself, StringLe()) && |r.all| == r.allCount
    ensures r.top.Some? <==> i.top.Some?
    ensures r.topCount.Some? <==> i.top.Some?
    ensures i.top.Some? ==>
      multiset(r.top.value) == multiset(i.top.value) && SortedBy(r.top.value, Itself, StringLe()) &&
      r.topCount.value == |i.top.value| == |r.top.value|
  {
    match i.top
    case None => PackageRow(p, SortedNames(i.all), |i.all|, None, None)
    case Some(t) => PackageRow(p, SortedNames(i.all), |i.all|, Some(SortedNames(t)), Some(|t|))
  }

  /** The sort key `-i['all_count']`. */
  function NegCount(r: PackageRow): int {
    -(r.allCount as int)
  }

  function IntLe(): (le: (int, int) -> bool)
    ensures forall a, b :: le(a, b) == (a <= b)
  {
    (a: int, b: int) => a <= b
  }

  lemma IntLeTotal()
    ensures TotalPreorder(IntLe())
  {
  }

  /** The order the rows are built in: by package name. */
  function ByName(): (tie: (PackageRow, PackageRow) -> bool)
    ensures forall a, b :: tie(a, b) == Less(a.package, b.package)
  {
    (a: PackageRow, b: PackageRow) => Less(a.package, b.package)
  }

  /** Each row is the one built for its package. */
  predicate RowsOf(rows: seq<PackageRow>, packages: map<string, UsedBy>) {
    forall k :: 0 <= k < |rows| ==> rows[k].package in packages && rows[k] == RowOf(rows[k].package, packages[rows[k].package])
  }

  /** Every package has a row. */
  predicate CoversAll(rows: seq<PackageRow>, packages: map<string, UsedBy>) {
    forall p :: p in packages ==> exists k :: 0 <= k < |rows| && rows[k].package == p
  }

  /** By descending count, equal counts by name. */
  predicate CountOrder(rows: seq<PackageRow>) {
    forall j, k :: 0 <= j < k < |rows| ==>
      rows[j].allCount > rows[k].allCount ||
      (rows[j].allCount == rows[k].allCount && Less(rows[j].package, rows[k].package))
  }

  /** The first loop of `dict_to_list`: a row per key, keys in increasing order. */
  method BuildRows(packages: map<string, UsedBy>) returns (rows: seq<PackageRow>)
    ensures RowsOf(rows, packages) && CoversAll(rows, packages)
    ensures forall j, k :: 0 <= j < k < |rows| ==> Less(rows[j].package, rows[k].package)
  {
    var names := SortedSet(packages.Keys);
    rows := [];
    for i := 0 to |names|
      invariant |rows| == i
      invariant forall k :: 0 <= k < i ==> names[k] in packages && rows[k] == RowOf(names[k], packages[names[k]])
    {
      rows := rows + [RowOf(names[i], packages[names[i]])];
    }
    forall p | p in packages
      ensures exists k :: 0 <= k < |rows| && rows[k].package == p
    {
      var i :| 0 <= i < |names| && names[i] == p;
      assert rows[i].package == p;
    }
  }

  /** Sorting keeps the rows and the packages they cover. */
  lemma SortKeepsRows(rows: seq<PackageRow>, packages: map<string, UsedBy>, result: seq<PackageRow>)
    requires RowsOf(rows, packages) && CoversAll(rows, packages)
    requires multiset(result) == multiset(rows)
    ensures RowsOf(result, packages) && CoversAll(result, packages)
  {
    forall k | 0 <= k < |result|
      ensures result[k].package in packages && result[k] == RowOf(result[k].package, packages[result[k].package])
    {
      assert result[k] in multiset(rows);
    }
    forall p | p in packages
      ensures exists k :: 0 <= k < |result| && result[k].package == p
    {
      var i :| 0 <= i < |rows| && rows[i].package == p;
      assert rows[i] in multiset(result);
    }
  }

  /** The stable sort's order, read back as counts and names. */
  lemma SortedByCount(result: seq<PackageRow>)
    requires SortedThen(result, NegCount, IntLe(), ByName())
    ensures CountOrder(result)
  {
  }

  /** In that order no package appears twice: equal packages have equal rows, hence equal counts, hence would need a name before itself. */
  lemma CountOrderDistinct(result: seq<PackageRow>, packages: map<string, UsedBy>)
    requires RowsOf(result, packages) && CountOrder(result)
    ensures forall j, k :: 0 <= j < k < |result| ==> result[j].package != result[k].package
  {
    forall j, k | 0 <= j < k < |result|
      ensures result[j].package != result[k].package
    {
      if result[j].package == result[k].package {
        assert result[j] == result[k];
        LessIrreflexive(result[j].package);
      }
    }
  }

  /**
   * `dict_to_list`: a row per package, built in name order, then stably sorted by
   * descending `all_count`. Every package gets exactly one row, and rows with equal counts
   * stay in name order.
   */
  method DictToList(packages: map<string, UsedBy>) returns (result: seq<PackageRow>)
    ensures RowsOf(result, packages) && CoversAll(result, packages)
    ensures CountOrder(result)
    ensures forall j, k :: 0 <= j < k < |result| ==> result[j].package != result[k].package
  {
    var rows := BuildRows(packages);
    IntLeTotal();
    SortByStable(rows, NegCount, IntLe(), ByName());
    result := SortBy(rows, NegCount, IntLe());
    SortKeepsRows(rows, packages, result);
    SortedByCount(result);
    CountOrderDistinct(result, packages);
  }

  // ---------------------------------------------------------------------------------------
  // `sanitize_description`

  /** The length of the kept tag (`<p>`, `</p>`, `<ul>`, `</ul>`, `<li>`, `</li>`) at the start, or 0. */
  function TagAt(s: string): (n: nat)
    ensures n == 0 || (3 <= n <= 5 && n <= |s| && s[0] == '<' && s[n - 1] == '>')
  {
    if StartsWith(s, "<p>") then 3
    else if StartsWith(s, "</p>") then 4
    else if StartsWith(s, "<ul>") then 4
    else if StartsWith(s, "</ul>") then 5
    else if StartsWith(s, "<li>") then 4
    else if StartsWith(s, "</li>") then 5
    else 0
  }

  /**
   * The main substitution: a kept tag is copied, any other `<` becomes `&lt;` and `>`
   * becomes `&gt;`. A run of other characters (`[^<>]+`) is copied unchanged, which is
   * copying it a character at a time, since no tag can start inside it.
   */
  function Escape(s: string): string
    decreases |s|
  {
    if |s| == 0 then ""
    else
      var n := TagAt(s);
      if n > 0 then s[..n] + Escape(s[n..])
      else if s[0] == '<' then "&lt;" + Escape(s[1..])
      else if s[0] == '>' then "&gt;" + Escape(s[1..])
      else [s[0]] + Escape(s[1..])
  }

  /** Text in which every `<` and `>` belongs to a kept tag. */
  predicate Safe(t: string)
    decreases |t|
  {
    |t| == 0 ||
    (TagAt(t) > 0 && Safe(t[TagAt(t)..])) ||
    (TagAt(t) == 0 && t[0] != '<' && t[0] != '>' && Safe(t[1..]))
  }

  /** A string starting with `c`, which no tag starts with, is safe when its tail is. */
  lemma SafeCons(c: char, t: string)
    requires c != '<' && c != '>' && Safe(t)
    ensures Safe([c] + t)
  {
    var u := [c] + t;
    assert u[0] == c;
    assert u[1..] == t;
  }

  /** Re-reading a kept tag finds the same tag. */
  lemma TagAgain(s: string, rest: string)
    requires TagAt(s) > 0
    ensures TagAt(s[..TagAt(s)] + rest) == TagAt(s)
    ensures (s[..TagAt(s)] + rest)[TagAt(s)..] == rest
  {
    var n := TagAt(s);
    var u := s[..n] + rest;
    assert u[..n] == s[..n];
    assert u[n..] == rest;
  }

  /** Every `<` and `>` left after escaping belongs to a kept tag. */
  lemma {:induction false} EscapeSafe(s: string)
    ensures Safe(Escape(s))
    decreases |s|
  {
    if |s| > 0 {
      var n := TagAt(s);
      if n > 0 {
        EscapeSafe(s[n..]);
        TagAgain(s, Escape(s[n..]));
      } else if s[0] == '<' || s[0] == '>' {
        var e := Escape(s[1..]);
        EscapeSafe(s[1..]);
        var code := if s[0] == '<' then "lt;" else "gt;";
        SafeCons(code[2], e);
        SafeCons(code[1], [code[2]] + e);
        SafeCons(code[0], [code[1]] + ([code[2]] + e));
        SafeCons('&', [code[0]] + ([code[1]] + ([code[2]] + e)));
        assert Escape(s) == ['&'] + ([code[0]] + ([code[1]] + ([code[2]] + e)));
      } else {
        EscapeSafe(s[1..]);
        SafeCons(s[0], Escape(s[1..]));
      }
    }
  }

  /** Safe text passes through unchanged. */
  lemma {:induction false} EscapeSafeUnchanged(t: string)
    requires Safe(t)
    ensures Escape(t) == t
    decreases |t|
  {
    if |t| > 0 {
      var n := TagAt(t);
      if n > 0 {
        EscapeSafeUnchanged(t[n..]);
        assert t == t[..n] + t[n..];
      } else {
        EscapeSafeUnchanged(t[1..]);
        assert t == [t[0]] + t[1..];
      }
    }
  }

  /** Escaping twice is escaping once. */
  lemma EscapeIdempotent(s: string)
    ensures Escape(Escape(s)) == Escape(s)
  {
    EscapeSafe(s);
    EscapeSafeUnchanged(Escape(s));
  }

  /** Turning `&lt;` and `&gt;` back into `<` and `>`. */
  function Unescape(t: string): string
    decreases |t|
  {
    if |t| == 0 then ""
    else if StartsWith(t, "&lt;") then "<" + Unescape(t[4..])
    else if StartsWith(t, "&gt;") then ">" + Unescape(t[4..])
    else [t[0]] + Unescape(t[1..])
  }

  /** Text without `&` is not touched by unescaping. */
  lemma {:induction false} UnescapePlain(x: string, t: string)
    requires '&' !in x
    ensures Unescape(x + t) == x + Unescape(t)
    decreases |x|
  {
    if |x| > 0 {
      var u := x + t;
      assert x[0] in x;
      assert u[0] == x[0] != '&';
      assert !StartsWith(u, "&lt;") && !StartsWith(u, "&gt;");
      assert u[1..] == x[1..] + t;
      assert Unescape(u) == [x[0]] + Unescape(x[1..] + t);
      assert forall c :: c in x[1..] ==> c in x;
      UnescapePlain(x[1..], t);
      assert x == [x[0]] + x[1..];
      assert x + Unescape(t) == [x[0]] + (x[1..] + Unescape(t));
    } else {
      assert x + t == t;
    }
  }

  /** An escaped bracket reads back as the bracket. */
  lemma UnescapeCode(code: string, e: string)
    requires code == "&lt;" || code == "&gt;"
    ensures Unescape(code + e) == (if code == "&lt;" then "<" else ">") + Unescape(e)
  {
    var u := code + e;
    assert u[..4] == code && u[4..] == e;
  }

  /** The escaped form of a string opening with a tag or a bracket, or of one with a plain first character. */
  lemma EscapeStep(s: string)
    requires |s| > 0
    ensures TagAt(s) > 0 ==> Escape(s) == s[..TagAt(s)] + Escape(s[TagAt(s)..])
    ensures TagAt(s) == 0 && s[0] == '<' ==> Escape(s) == "&lt;" + Escape(s[1..])
    ensures TagAt(s) == 0 && s[0] == '>' ==> Escape(s) == "&gt;" + Escape(s[1..])
    ensures TagAt(s) == 0 && s[0] != '<' && s[0] != '>' ==> Escape(s) == [s[0]] + Escape(s[1..])
  {
  }

  /** For text without `&`, escaping loses nothing: unescaping gives the text back. */
  lemma {:induction false} EscapeRoundTrip(s: string)
    requires '&' !in s
    ensures Unescape(Escape(s)) == s
    decreases |s|, 1
  {
    if |s| > 0 {
      if TagAt(s) > 0 {
        RoundTripTag(s);
      } else {
        RoundTripChar(s);
      }
    }
  }

  /** A kept tag holds no `&`, so it reads back as itself. */
  lemma {:induction false} RoundTripTag(s: string)
    requires '&' !in s && TagAt(s) > 0
    ensures Unescape(Escape(s)) == s
    decreases |s|, 0
  {
    var n := TagAt(s);
    EscapeStep(s);
    NoAmpParts(s, n);
    UnescapePlain(s[..n], Escape(s[n..]));
    EscapeRoundTrip(s[n..]);
    TakeDrop(s, n);
  }

  /** A bracket reads back from its code, any other character as itself. */
  lemma {:induction false} RoundTripChar(s: string)
    requires '&' !in s && |s| > 0 && TagAt(s) == 0
    ensures Unescape(Escape(s)) == s
    decreases |s|, 0
  {
    EscapeStep(s);
    NoAmpParts(s, 1);
    EscapeRoundTrip(s[1..]);
    var e := Escape(s[1..]);
    if s[0] == '<' {
      UnescapeCode("&lt;", e);
    } else if s[0] == '>' {
      UnescapeCode("&gt;", e);
    } else {
      UnescapePlain(s[..1], e);
      assert s[..1] == [s[0]];
    }
    TakeDrop(s, 1);
  }

  /** The pieces of text without `&` have none either. */
  lemma NoAmpParts(s: string, n: nat)
    requires '&' !in s && n <= |s|
    ensures '&' !in s[..n] && '&' !in s[n..]
  {
    assert forall c :: c in s[..n] ==> c in s;
    assert forall c :: c in s[n..] ==> c in s;
  }

  lemma TakeDrop(s: string, n: nat)
    requires n <= |s|
    ensures s[..n] + s[n..] == s && (n == 1 ==> [s[0]] + s[1..] == s)
  {
    if n == 1 {
      assert s[..1] == [s[0]];
    }
  }

  /** The opening of the translated paragraphs the first substitution removes. */
  const LangOpen := "<p xml:lang=\""

  /** The text before the first newline, which is where `.*` has to stop. */
  function LineOf(s: string): (l: string)
    ensures '\n' !in l && StartsWith(s, l)
    ensures |l| < |s| ==> s[|l|] == '\n'
  {
    var k := FindChar(s, '\n');
    if k < 0 then s else s[..k]
  }

  /** `pat` occurs in `s` at index `k`. */
  predicate OccursAt(s: string, pat: string, k: int) {
    0 <= k <= |s| - |pat| && s[k..k + |pat|] == pat
  }

  /** The last index up to `j` at which `pat` occurs in `s`, or -1. */
  function LastFrom(s: string, pat: string, j: int): (e: int)
    requires -1 <= j <= |s| - |pat|
    ensures -1 <= e <= j
    ensures e >= 0 ==> OccursAt(s, pat, e)
    ensures forall k :: e < k <= j ==> !OccursAt(s, pat, k)
    decreases j + 1
  {
    if j < 0 then -1
    else if s[j..j + |pat|] == pat then j
    else LastFrom(s, pat, j - 1)
  }

  /** The last index at which `pat` occurs in `s`, or -1: where a greedy `.*` before `pat` ends. */
  function LastAt(s: string, pat: string): (e: int)
    ensures e == -1 || 0 <= e <= |s| - |pat|
    ensures e >= 0 ==> OccursAt(s, pat, e)
    ensures forall k :: e < k ==> !OccursAt(s, pat, k)
  {
    if |s| < |pat| then -1 else LastFrom(s, pat, |s| - |pat|)
  }

  /**
   * The length of a match of `<p xml:lang="[^"]*">.*</p>` at the start of `s`, or 0: the
   * attribute runs to the first `"`, which must be followed by `>`, and the paragraph ends
   * at the last `</p>` on the same line.
   */
  function LangParaAt(s: string): (n: nat)
    ensures n == 0 || |LangOpen| < n <= |s|
  {
    if !StartsWith(s, LangOpen) then 0
    else
      var rest := s[|LangOpen|..];
      var q := FindChar(rest, '"');
      if q < 0 || q + 1 >= |rest| || rest[q + 1] != '>' then 0
      else
        var body := rest[q + 2..];
        var e := LastAt(LineOf(body), "</p>");
        if e < 0 then 0 else |LangOpen| + q + 2 + e + 4
  }

  /** The first substitution: every match, scanning left to right, removed. */
  function DropLangParas(s: string): (r: string)
    ensures |r| <= |s|
    decreases |s|
  {
    if |s| == 0 then ""
    else
      var n := LangParaAt(s);
      if n > 0 then DropLangParas(s[n..]) else [s[0]] + DropLangParas(s[1..])
  }

  /** Without the opening anywhere, the first substitution changes nothing. */
  lemma {:induction false} DropWithoutOpen(s: string)
    requires forall i :: 0 <= i < |s| ==> !StartsWith(s[i..], LangOpen)
    ensures DropLangParas(s) == s
    decreases |s|
  {
    if |s| > 0 {
      assert !StartsWith(s[0..], LangOpen);
      assert s[0..] == s;
      forall i | 0 <= i < |s| - 1
        ensures !StartsWith(s[1..][i..], LangOpen)
      {
        assert s[1..][i..] == s[i + 1..];
      }
      DropWithoutOpen(s[1..]);
      assert s == [s[0]] + s[1..];
    }
  }

  /** The pieces of a translated paragraph followed by the rest of the text. */
  lemma ParaPieces(lang: string, text: string, close: string, rest: string, s: string)
    requires close == "</p>"
    requires s == LangOpen + (lang + ("\">" + ((text + close) + rest)))
    ensures StartsWith(s, LangOpen)
    ensures s[|LangOpen|..] == lang + ("\">" + ((text + close) + rest))
  {
    assert s[..|LangOpen|] == LangOpen;
  }

  /** The attribute ends at the first quote. */
  lemma QuoteAfter(lang: string, tail: string)
    requires '"' !in lang && |tail| >= 2 && tail[0] == '"' && tail[1] == '>'
    ensures var q := FindChar(lang + tail, '"');
      q == |lang| && q + 1 < |lang + tail| && (lang + tail)[q + 1] == '>' && (lang + tail)[q + 2..] == tail[2..]
  {
    var u := lang + tail;
    assert u[|lang|] == '"';
    assert u[..|lang|] == lang;
    assert u[|lang| + 2..] == tail[2..];
  }

  /** The paragraph's line ends where the rest begins, and its last `</p>` is the closing one. */
  lemma LineEnd(text: string, close: string, rest: string)
    requires close == "</p>"
    requires '\n' !in text && (|rest| == 0 || rest[0] == '\n')
    ensures LineOf((text + close) + rest) == text + close
    ensures LastAt(text + close, "</p>") == |text|
  {
    var line := text + close;
    var b := line + rest;
    assert '\n' !in line by {
      assert forall c :: c in line ==> c in text || c in close;
    }
    assert b[..|line|] == line;
    if |rest| > 0 {
      assert b[|line|] == '\n';
    } else {
      assert b == line;
    }
    assert line[|line| - 4..] == close;
  }

  /** The pattern matches exactly the paragraph. */
  lemma ParaMatch(lang: string, text: string, rest: string, s: string)
    requires '"' !in lang && '\n' !in text
    requires |rest| == 0 || rest[0] == '\n'
    requires s == LangOpen + (lang + ("\">" + ((text + "</p>") + rest)))
    ensures LangParaAt(s) == |LangOpen| + |lang| + 2 + |text| + 4
  {
    var close := "</p>";
    ParaPieces(lang, text, close, rest, s);
    var tail := "\">" + ((text + close) + rest);
    QuoteAfter(lang, tail);
    assert tail[2..] == (text + close) + rest;
    LineEnd(text, close, rest);
  }

  /**
   * A translated paragraph that ends its line disappears, up to the newline; the greedy
   * `.*` takes it to the last `</p>` of the line.
   */
  lemma DropParagraph(lang: string, text: string, rest: string)
    requires '"' !in lang && '\n' !in text
    requires |rest| == 0 || rest[0] == '\n'
    ensures DropLangParas(LangOpen + lang + "\">" + text + "</p>" + rest) == DropLangParas(rest)
  {
    var a := LangOpen + lang + "\">" + text + "</p>";
    var s := a + rest;
    Assoc6(LangOpen, lang, "\">", text, "</p>", rest);
    ParaMatch(lang, text, rest, s);
    DropAt(s, |a|);
    SuffixOf(a, rest, s);
  }

  lemma Assoc6(a: string, b: string, c: string, d: string, e: string, f: string)
    ensures a + b + c + d + e + f == a + (b + (c + ((d + e) + f)))
  {
  }

  /** A translated paragraph of length `n` at the start is dropped whole. */
  lemma DropAt(s: string, n: nat)
    requires n > 0 && LangParaAt(s) == n
    ensures DropLangParas(s) == DropLangParas(s[n..])
  {
  }

  lemma SuffixOf(a: string, b: string, s: string)
    requires s == a + b
    ensures s[|a|..] == b
  {
  }

  /** `sanitize_description`: the translated paragraphs removed, then the brackets escaped. */
  function SanitizeDescription(description: string): (r: string)
    ensures Safe(r)
  {
    EscapeSafe(DropLangParas(description));
    Escape(DropLangParas(description))
  }

  /** A description without `&` and without translated paragraphs can be read back from its sanitised form. */
  lemma SanitizeRoundTrip(description: string)
    requires '&' !in description
    requires forall i :: 0 <= i < |description| ==> !StartsWith(description[i..], LangOpen)
    ensures Unescape(SanitizeDescription(description)) == description
  {
    DropWithoutOpen(description);
    EscapeRoundTrip(description);
  }
}
