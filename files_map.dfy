/**
 * The files map: for every path in the distribution, the name of the preferred package
 * shipping it. tools/util.py reads the repository's filelists document with a SAX
 * handler (`FilesMapHandler`) that calls back once per `<file>` element with the
 * enclosing package's tuple; tools/resolve-files.py's `make_files_map` folds those
 * callbacks into a dict, keeping the package `package_cmp` prefers, and finally
 * replaces each tuple by its name.
 *
 * The SAX parser itself is not modelled: a document is the sequence of events it
 * delivers. The callback is modelled by the handler returning its arguments.
 */
module FilesMap {
  import opened Wrappers
  import opened Strings
  import opened Ranking

  /** What the SAX parser delivers: `startElement`, `endElement` and `characters` calls. */
  datatype Event =
    | Start(tag: string, attrs: map<string, string>)
    | End(tag: string)
    | Chars(content: string)

  /** The `(name, epoch, version, release, arch)` tuple; any field may still be `None`. */
  datatype PackageInfo = PackageInfo(
    name: Option<string>, epoch: Option<string>, version: Option<string>,
    release: Option<string>, arch: Option<string>)

  /** One call of the callback: the package tuple and the accumulated file text. */
  datatype Call = Call(info: PackageInfo, path: Option<string>)

  /** The handler's fields. */
  datatype HState = HState(
    packageInfo: Option<PackageInfo>,
    name: Option<string>, arch: Option<string>,
    epoch: Option<string>, version: Option<string>, release: Option<string>,
    file: Option<string>)

  /** What `__init__` leaves: every field `None`. */
  const Initial := HState(None, None, None, None, None, None, None)

  /** The state after a handler method, and whether it returned or raised `KeyError`. */
  datatype Outcome = Outcome(state: HState, ok: bool)

  /** The tuple the handler builds from its current fields. */
  function TupleOf(h: HState): (p: PackageInfo)
    ensures p.name == h.name && p.epoch == h.epoch && p.version == h.version
    ensures p.release == h.release && p.arch == h.arch
  {
    PackageInfo(h.name, h.epoch, h.version, h.release, h.arch)
  }

  /**
   * `startElement`: `package` takes `name`, then `arch`; `version` takes `epoch`, `ver`
   * and `rel` once a name has been seen; `file` starts an empty text. A missing attribute
   * raises `KeyError` after the assignments before it have happened.
   */
  function StepStart(h: HState, tag: string, attrs: map<string, string>): Outcome {
    if tag == "package" then
      if "name" !in attrs then Outcome(h, false)
      else
        var h1 := h.(name := Some(attrs["name"]));
        if "arch" !in attrs then Outcome(h1, false)
        else Outcome(h1.(arch := Some(attrs["arch"])), true)
    else if tag == "version" then
      if h.name.None? then Outcome(h, true)
      else if "epoch" !in attrs then Outcome(h, false)
      else
        var h1 := h.(epoch := Some(attrs["epoch"]));
        if "ver" !in attrs then Outcome(h1, false)
        else
          var h2 := h1.(version := Some(attrs["ver"]));
          if "rel" !in attrs then Outcome(h2, false)
          else Outcome(h2.(release := Some(attrs["rel"])), true)
    else if tag == "file" then Outcome(h.(file := Some("")), true)
    else Outcome(h, true)
  }

  /** `endElement`: the new state and the callback it makes, if any. */
  function StepEnd(h: HState, tag: string): (HState, Option<Call>) {
    if tag == "package" then (h.(packageInfo := None), None)
    else if tag == "file" then
      var info := if h.packageInfo.None? then TupleOf(h) else h.packageInfo.value;
      (h.(packageInfo := Some(info), file := None), Some(Call(info, h.file)))
    else (h, None)
  }

  /** `characters`: text is appended only inside a `file` element. */
  function StepChars(h: HState, content: string): HState {
    if h.file.Some? then h.(file := Some(h.file.value + content)) else h
  }

  /** The outcome of feeding a whole document: final state, callbacks made, and whether it ran to the end. */
  datatype RunResult = RunResult(state: HState, calls: seq<Call>, ok: bool)

  function Run(h: HState, events: seq<Event>): RunResult
    decreases |events|
  {
    if |events| == 0 then RunResult(h, [], true)
    else
      match events[0]
      case Start(tag, attrs) =>
        var o := StepStart(h, tag, attrs);
        if !o.ok then RunResult(o.state, [], false) else Run(o.state, events[1..])
      case End(tag) =>
        var (h1, call) := StepEnd(h, tag);
        var rest := Run(h1, events[1..]);
        if call.Some? then RunResult(rest.state, [call.value] + rest.calls, rest.ok) else rest
      case Chars(content) => Run(StepChars(h, content), events[1..])
  }

  function CountFileEnds(events: seq<Event>): nat {
    if |events| == 0 then 0
    else (if events[0] == End("file") then 1 else 0) + CountFileEnds(events[1..])
  }

  /** A document read to the end makes exactly one callback per closing `file` element. */
  lemma {:induction false} OneCallPerFile(h: HState, events: seq<Event>)
    requires Run(h, events).ok
    ensures |Run(h, events).calls| == CountFileEnds(events)
    decreases |events|
  {
    if |events| > 0 {
      match events[0]
      case Start(tag, attrs) =>
        OneCallPerFile(StepStart(h, tag, attrs).state, events[1..]);
      case End(tag) =>
        OneCallPerFile(StepEnd(h, tag).0, events[1..]);
      case Chars(content) =>
        OneCallPerFile(StepChars(h, content), events[1..]);
    }
  }

  function CharsEvents(texts: seq<string>): (evs: seq<Event>)
    ensures |evs| == |texts| && forall i :: 0 <= i < |evs| ==> evs[i] == Chars(texts[i])
  {
    if |texts| == 0 then [] else [Chars(texts[0])] + CharsEvents(texts[1..])
  }

  function Concat(texts: seq<string>): string {
    if |texts| == 0 then "" else texts[0] + Concat(texts[1..])
  }

  /** Text delivered in pieces inside a `file` element accumulates into its concatenation. */
  lemma {:induction false} CharsAccumulate(h: HState, texts: seq<string>, rest: seq<Event>)
    requires h.file.Some?
    ensures Run(h, CharsEvents(texts) + rest) == Run(h.(file := Some(h.file.value + Concat(texts))), rest)
    decreases |texts|
  {
    if |texts| == 0 {
      assert CharsEvents(texts) + rest == rest;
      assert h.file.value + "" == h.file.value;
    } else {
      var evs := CharsEvents(texts) + rest;
      assert evs[0] == Chars(texts[0]);
      assert evs[1..] == CharsEvents(texts[1..]) + rest;
      var h1 := StepChars(h, texts[0]);
      CharsAccumulate(h1, texts[1..], rest);
      assert h1.file.value + Concat(texts[1..]) == h.file.value + Concat(texts);
    }
  }

  /** Text outside a `file` element changes nothing and makes no callback. */
  lemma {:induction false} CharsOutsideIgnored(h: HState, texts: seq<string>, rest: seq<Event>)
    requires h.file.None?
    ensures Run(h, CharsEvents(texts) + rest) == Run(h, rest)
  {
    if |texts| == 0 {
      assert CharsEvents(texts) + rest == rest;
    } else {
      var evs := CharsEvents(texts) + rest;
      assert evs[0] == Chars(texts[0]);
      assert evs[1..] == CharsEvents(texts[1..]) + rest;
      CharsOutsideIgnored(h, texts[1..], rest);
    }
  }

  /**
   * A `file` element makes one callback carrying its whole text and the package tuple: the
   * one cached for the current package, or else the tuple of the current fields, which is
   * then cached.
   */
  lemma FileElement(h: HState, attrs: map<string, string>, texts: seq<string>, rest: seq<Event>)
    ensures var info := if h.packageInfo.None? then TupleOf(h) else h.packageInfo.value;
            var after := h.(packageInfo := Some(info), file := None);
            var r := Run(after, rest);
            Run(h, [Start("file", attrs)] + CharsEvents(texts) + [End("file")] + rest)
              == RunResult(r.state, [Call(info, Some(Concat(texts)))] + r.calls, r.ok)
  {
    var evs := [Start("file", attrs)] + CharsEvents(texts) + [End("file")] + rest;
    var h1 := h.(file := Some(""));
    assert evs[0] == Start("file", attrs);
    assert evs[1..] == CharsEvents(texts) + ([End("file")] + rest);
    CharsAccumulate(h1, texts, [End("file")] + rest);
    assert "" + Concat(texts) == Concat(texts);
  }

  /** Closing a package forgets the cached tuple, and nothing else. */
  lemma PackageEndResets(h: HState)
    ensures StepEnd(h, "package") == (h.(packageInfo := None), None)
  {
  }

  /**
   * A complete package element with a version and one file yields the callback with that
   * package's own tuple.
   */
  lemma {:induction false} CompletePackage(h: HState, n: string, a: string, e: string, v: string, r: string, path: string)
    requires h.packageInfo.None?
    ensures var evs := [Start("package", map["name" := n, "arch" := a]),
                        Start("version", map["epoch" := e, "ver" := v, "rel" := r]),
                        Start("file", map[]), Chars(path), End("file"), End("package")];
            Run(h, evs).ok && Run(h, evs).calls == [Call(PackageInfo(Some(n), Some(e), Some(v), Some(r), Some(a)), Some(path))]
  {
    var evs := [Start("package", map["name" := n, "arch" := a]),
                Start("version", map["epoch" := e, "ver" := v, "rel" := r]),
                Start("file", map[]), Chars(path), End("file"), End("package")];
    var h1 := StepStart(h, "package", map["name" := n, "arch" := a]).state;
    var h2 := StepStart(h1, "version", map["epoch" := e, "ver" := v, "rel" := r]).state;
    assert h2.name == Some(n) && h2.arch == Some(a) && h2.epoch == Some(e);
    assert h2.version == Some(v) && h2.release == Some(r) && h2.packageInfo.None?;
    assert evs[2..] == [Start("file", map[])] + CharsEvents([path]) + [End("file")] + [End("package")];
    FileElement(h2, map[], [path], [End("package")]);
    assert Concat([path]) == path;
    assert evs[1..][1..] == evs[2..];
  }

  /**
   * A package without a `version` element inherits the previous package's epoch, version and
   * release, because the handler never clears them.
   */
  lemma {:induction false} MissingVersionInherits(h: HState, n: string, a: string, path: string)
    requires h.packageInfo.None?
    ensures var evs := [Start("package", map["name" := n, "arch" := a]),
                        Start("file", map[]), Chars(path), End("file")];
            Run(h, evs).calls == [Call(PackageInfo(Some(n), h.epoch, h.version, h.release, Some(a)), Some(path))]
  {
    var evs := [Start("package", map["name" := n, "arch" := a]),
                Start("file", map[]), Chars(path), End("file")];
    var h1 := StepStart(h, "package", map["name" := n, "arch" := a]).state;
    assert evs[1..] == [Start("file", map[])] + CharsEvents([path]) + [End("file")] + [];
    FileElement(h1, map[], [path], []);
    assert Concat([path]) == path;
  }

  /** `FilesMapHandler`: the SAX content handler whose fields the callbacks update. */
  class FilesMapHandler {
    var packageInfo: Option<PackageInfo>
    var name: Option<string>
    var arch: Option<string>
    var epoch: Option<string>
    var version: Option<string>
    var release: Option<string>
    var file: Option<string>

    function State(): HState
      reads this
    {
      HState(packageInfo, name, arch, epoch, version, release, file)
    }

    constructor()
      ensures State() == Initial
    {
      packageInfo := None;
      name := None;
      arch := None;
      epoch := None;
      version := None;
      release := None;
      file := None;
    }

    /** `startElement`; `ok` is false where Python raises `KeyError`. */
    method StartElement(tag: string, attrs: map<string, string>) returns (ok: bool)
      modifies this
      ensures State() == StepStart(old(State()), tag, attrs).state
      ensures ok == StepStart(old(State()), tag, attrs).ok
    {
      ok := true;
      if tag == "package" {
        if "name" !in attrs {
          return false;
        }
        name := Some(attrs["name"]);
        if "arch" !in attrs {
          return false;
        }
        arch := Some(attrs["arch"]);
      } else if tag == "version" {
        if name.Some? {
          if "epoch" !in attrs {
            return false;
          }
          epoch := Some(attrs["epoch"]);
          if "ver" !in attrs {
            return false;
          }
          version := Some(attrs["ver"]);
          if "rel" !in attrs {
            return false;
          }
          release := Some(attrs["rel"]);
        }
      } else if tag == "file" {
        file := Some("");
      }
    }

    /** `endElement`; `call` holds the arguments of the callback it makes. */
    method EndElement(tag: string) returns (call: Option<Call>)
      modifies this
      ensures (State(), call) == StepEnd(old(State()), tag)
    {
      call := None;
      if tag == "package" {
        packageInfo := None;
      } else if tag == "file" {
        if packageInfo.None? {
          packageInfo := Some(PackageInfo(name, epoch, version, release, arch));
        }
        call := Some(Call(packageInfo.value, file));
        file := None;
      }
    }

    /** `characters`. */
    method Characters(content: string)
      modifies this
      ensures State() == StepChars(old(State()), content)
    {
      if file.Some? {
        file := Some(file.value + content);
      }
    }
  }

  /** `foreach_file`: feeds the document to a fresh handler and collects the callbacks. */
  method ForeachFile(events: seq<Event>) returns (calls: seq<Call>, ok: bool)
    ensures calls == Run(Initial, events).calls && ok == Run(Initial, events).ok
  {
    var handler := new FilesMapHandler();
    calls := [];
    var i := 0;
    while i < |events|
      invariant 0 <= i <= |events|
      invariant var rest := Run(handler.State(), events[i..]);
                Run(Initial, events) == RunResult(rest.state, calls + rest.calls, rest.ok)
      decreases |events| - i
    {
      assert events[i..][1..] == events[i + 1..];
      match events[i] {
        case Start(tag, attrs) =>
          var stepOk := handler.StartElement(tag, attrs);
          if !stepOk {
            return calls, false;
          }
        case End(tag) =>
          var call := handler.EndElement(tag);
          if call.Some? {
            calls := calls + [call.value];
          }
        case Chars(content) =>
          handler.Characters(content);
      }
      i := i + 1;
    }
    ok := true;
  }

  /** A path and a package with all of name, version, release and arch. */
  datatype Entry = Entry(path: string, pkg: Nevra)

  /**
   * The callback argument as a files-map entry. Every `file` of filelists metadata is taken
   * to follow its package's `version`; a call without a path or a complete tuple has no entry.
   */
  function EntryOf(c: Call): (e: Option<Entry>)
    ensures e.Some? <==> c.path.Some? && c.info.name.Some? && c.info.version.Some? && c.info.release.Some? && c.info.arch.Some?
    ensures e.Some? ==> e.value.path == c.path.value && e.value.pkg.name == c.info.name.value && e.value.pkg.epoch == c.info.epoch
  {
    if c.path.Some? && c.info.name.Some? && c.info.version.Some? && c.info.release.Some? && c.info.arch.Some? then
      Some(Entry(c.path.value, Nevra(c.info.name.value, c.info.epoch, c.info.version.value, c.info.release.value, c.info.arch.value)))
    else None
  }

  function Entries(calls: seq<Call>): seq<Entry> {
    if |calls| == 0 then []
    else
      var init := Entries(calls[..|calls| - 1]);
      match EntryOf(calls[|calls| - 1])
      case Some(e) => init + [e]
      case None => init
  }

  /** The callback's fold: a path's incumbent is replaced only by a package that compares strictly less. */
  function Best(es: seq<Entry>, cmp: (Nevra, Nevra) -> int): map<string, Nevra> {
    if |es| == 0 then map[]
    else
      var m := Best(es[..|es| - 1], cmp);
      var e := es[|es| - 1];
      if e.path !in m || cmp(e.pkg, m[e.path]) < 0 then m[e.path := e.pkg] else m
  }

  /** One more entry offered to the fold. */
  lemma BestSnoc(es: seq<Entry>, e: Entry, cmp: (Nevra, Nevra) -> int)
    ensures var m := Best(es, cmp);
      Best(es + [e], cmp) == if e.path !in m || cmp(e.pkg, m[e.path]) < 0 then m[e.path := e.pkg] else m
  {
    assert (es + [e])[..|es|] == es;
  }

  /** The map holds exactly the paths of the entries. */
  lemma {:induction false} BestKeys(es: seq<Entry>, cmp: (Nevra, Nevra) -> int, f: string)
    ensures f in Best(es, cmp) <==> exists i :: 0 <= i < |es| && es[i].path == f
  {
    if |es| > 0 {
      var init := es[..|es| - 1];
      BestKeys(init, cmp, f);
      if f in Best(init, cmp) {
        var i :| 0 <= i < |init| && init[i].path == f;
        assert es[i].path == f;
      }
      if exists i :: 0 <= i < |es| && es[i].path == f {
        var i :| 0 <= i < |es| && es[i].path == f;
        if i < |init| {
          assert init[i].path == f;
        }
      }
    }
  }

  /** Every stored package is one of the entries for that path. */
  lemma {:induction false} BestFromEntries(es: seq<Entry>, cmp: (Nevra, Nevra) -> int, f: string)
    requires f in Best(es, cmp)
    ensures exists i :: 0 <= i < |es| && es[i].path == f && es[i].pkg == Best(es, cmp)[f]
  {
    var init := es[..|es| - 1];
    var e := es[|es| - 1];
    if Best(es, cmp)[f] == e.pkg && e.path == f {
    } else {
      BestFromEntries(init, cmp, f);
      var i :| 0 <= i < |init| && init[i].path == f && init[i].pkg == Best(init, cmp)[f];
      assert es[i] == init[i];
    }
  }

  /** A package that beats every other package offered for a path ends up owning it. */
  lemma {:induction false} BestStrictWinner(es: seq<Entry>, cmp: (Nevra, Nevra) -> int, f: string, p: Nevra)
    requires exists i :: 0 <= i < |es| && es[i] == Entry(f, p)
    requires forall j :: 0 <= j < |es| && es[j].path == f && es[j].pkg != p ==>
               cmp(p, es[j].pkg) < 0 && cmp(es[j].pkg, p) >= 0
    ensures f in Best(es, cmp) && Best(es, cmp)[f] == p
  {
    var init := es[..|es| - 1];
    var e := es[|es| - 1];
    if exists i :: 0 <= i < |init| && init[i] == Entry(f, p) {
      BestStrictWinner(init, cmp, f, p);
    } else {
      assert e == Entry(f, p);
      if f in Best(init, cmp) {
        BestFromEntries(init, cmp, f);
        var i :| 0 <= i < |init| && init[i].path == f && init[i].pkg == Best(init, cmp)[f];
        assert es[i] == init[i];
      }
    }
  }

  /** When no package offered for a path beats another, the first one seen keeps it. */
  lemma {:induction false} BestFirstOfTies(es: seq<Entry>, cmp: (Nevra, Nevra) -> int, f: string, i: nat)
    requires i < |es| && es[i].path == f
    requires forall j :: 0 <= j < i ==> es[j].path != f
    requires forall j, k :: 0 <= j < |es| && 0 <= k < |es| && es[j].path == f && es[k].path == f ==>
               cmp(es[j].pkg, es[k].pkg) >= 0
    ensures f in Best(es, cmp) && Best(es, cmp)[f] == es[i].pkg
  {
    var init := es[..|es| - 1];
    if i == |es| - 1 {
      BestKeys(init, cmp, f);
    } else {
      BestFirstOfTies(init, cmp, f, i);
    }
  }

  /** The finalising loop: every tuple replaced by its name. */
  function Names(m: map<string, Nevra>): (r: map<string, string>)
    ensures r.Keys == m.Keys && forall k :: k in m ==> r[k] == m[k].name
  {
    map k | k in m :: m[k].name
  }

  /** `util.package_cmp` with the RPM comparison fixed. */
  function Cmp(labelCompare: (Evr, Evr) -> int): (cmp: (Nevra, Nevra) -> int)
    ensures forall a, b :: cmp(a, b) == PackageCmp(a, b, labelCompare)
  {
    (a: Nevra, b: Nevra) => PackageCmp(a, b, labelCompare)
  }

  /** The files map `make_files_map` computes from a filelists document. */
  function FilesMapOf(events: seq<Event>, labelCompare: (Evr, Evr) -> int): map<string, string> {
    Names(Best(Entries(Run(Initial, events).calls), Cmp(labelCompare)))
  }

  /** Running the callback over the entries, one at a time, is the fold `Best`. */
  method Fold(es: seq<Entry>, cmp: (Nevra, Nevra) -> int) returns (filesMap: map<string, Nevra>)
    ensures filesMap == Best(es, cmp)
  {
    filesMap := map[];
    for i := 0 to |es|
      invariant filesMap == Best(es[..i], cmp)
    {
      assert es[..i + 1][..i] == es[..i];
      var e := es[i];
      var old_ := filesMap;
      if e.path !in old_ || cmp(e.pkg, old_[e.path]) < 0 {
        filesMap := filesMap[e.path := e.pkg];
      }
    }
    assert es[..|es|] == es;
  }

  /** The loop `for k in files_map: files_map[k] = files_map[k][0]`. */
  method Finalize(m: map<string, Nevra>) returns (r: map<string, string>)
    ensures r == Names(m)
  {
    r := map[];
    var todo := m.Keys;
    while todo != {}
      invariant todo <= m.Keys
      invariant r.Keys == m.Keys - todo
      invariant forall k :: k in r ==> r[k] == m[k].name
      decreases |todo|
    {
      var k :| k in todo;
      r := r[k := m[k].name];
      todo := todo - {k};
    }
  }

  /**
   * `make_files_map`: parse, fold the callbacks, finalise. A `KeyError` from the handler
   * ends the run.
   */
  method MakeFilesMap(events: seq<Event>, labelCompare: (Evr, Evr) -> int) returns (r: Result<map<string, string>>)
    ensures Run(Initial, events).ok ==> r == Ok(FilesMapOf(events, labelCompare))
    ensures !Run(Initial, events).ok ==> r == Err(KeyError)
  {
    var calls, ok := ForeachFile(events);
    if !ok {
      return Err(KeyError);
    }
    var es: seq<Entry> := [];
    for i := 0 to |calls|
      invariant es == Entries(calls[..i])
    {
      assert calls[..i + 1][..i] == calls[..i];
      match EntryOf(calls[i])
      case Some(e) => es := es + [e];
      case None =>
    }
    assert calls[..|calls|] == calls;
    var best := Fold(es, Cmp(labelCompare));
    var names := Finalize(best);
    return Ok(names);
  }
}
