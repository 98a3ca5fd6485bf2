/**
 * The report of the older top-level `generate-report.py`. It shares the package table and
 * its bookkeeping with the runtime report; what differs is how a row is shown: no `extra`
 * inclusion, a single `not-on-live` class, a fixed note, and `required_by` lines in the
 * order they were recorded.
 */
module LegacyReport {
  import opened Wrappers
  import opened Strings
  import opened ReportData
  import RuntimeReport

  /**
   * `inclusion(which)`: `absent` at level 0, `dep` at level 1; above that `present` for the
   * profiles without a `_required_by` attribute, `files` when something requires the
   * package and `root` otherwise.
   */
  function LegacyInclusion(p: Package, w: Profile): (r: string)
    ensures r == "absent" <==> Level(p, w) == 0
    ensures r == "dep" <==> Level(p, w) == 1
    ensures r == "present" <==> Level(p, w) >= 2 && !IsRuntime(w)
    ensures r == "files" <==> Level(p, w) >= 2 && IsRuntime(w) && RuntimeReport.HasRequirers(p, w)
    ensures r == "root" <==> Level(p, w) >= 2 && IsRuntime(w) && !RuntimeReport.HasRequirers(p, w)
  {
    var level := Level(p, w);
    if level == 0 then "absent"
    else if level == 1 then "dep"
    else if !IsRuntime(w) then "present"
    else
      var rb := RequiredBy(p, w);
      if rb.Some? && |rb.value| > 0 then "files" else "root"
  }

  /** The two scripts agree on every row except that the newer one calls a flagged extra root `extra`. */
  lemma InclusionsAgree(p: Package, w: Profile)
    ensures LegacyInclusion(p, w) ==
      (if RuntimeReport.Inclusion(p, w) == "extra" then "root" else RuntimeReport.Inclusion(p, w))
  {
  }

  /** Without an `E…` flag the two scripts show the same inclusion. */
  lemma InclusionsAgreeUnflagged(p: Package, w: Profile)
    requires !RuntimeReport.ExtraFlag(p.flag)
    ensures LegacyInclusion(p, w) == RuntimeReport.Inclusion(p, w)
  {
    InclusionsAgree(p, w);
  }

  /** `klass`: `not-on-live` for a GNOME platform package missing from the Live image. */
  function LegacyKlass(p: Package): (k: string)
    ensures k == "not-on-live" <==> RuntimeReport.GnomeNotLive(p)
    ensures k != "not-on-live" ==> k == ""
  {
    if Level(p, GnomePlatform) != 0 && Level(p, Live) == 0 then "not-on-live" else ""
  }

  /** `note`: the fixed Live-image remark in exactly the same case. */
  function LegacyNote(p: Package): (r: string)
    ensures r == "platform package not on Live image" <==> RuntimeReport.GnomeNotLive(p)
    ensures r != "platform package not on Live image" ==> r == ""
  {
    if LegacyKlass(p) == "not-on-live" then "platform package not on Live image" else ""
  }

  /** A row has a class exactly when it has a note. */
  lemma KlassNoteTogether(p: Package)
    ensures LegacyKlass(p) != "" <==> LegacyNote(p) != ""
  {
  }

  /** Without a note from the notes file, the newer script shows the same note. */
  lemma NotesAgree(p: Package)
    requires p.note.None?
    ensures RuntimeReport.Note(p) == LegacyNote(p)
  {
  }

  /**
   * With no files recorded, the legacy `why` is one line per `required_by` entry, exactly
   * the recorded entries in the order they were appended.
   */
  lemma LegacyWhyInOrder(p: Package, w: Profile, es: seq<(string, string)>)
    requires IsRuntime(w) && Files(p, w).None? && RequiredBy(p, w) == Some(es)
    requires |es| > 0
    requires forall k :: 0 <= k < |es| ==> '\n' !in EntryText(es[k])
    ensures Why(p, w, false).Ok?
    ensures Split(Why(p, w, false).value, "\n") == EntryLines(es)
  {
    RequiredByLines(es, false);
    assert Why(p, w, false).value == RequiredByText(Some(es), false);
  }
}
