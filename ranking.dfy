/**
 * Which of two RPMs shipping the same path is the canonical one: `package_cmp` in
 * tools/util.py (a cascade of name rules, then the newer version) and the older
 * `package_cmp` of resolve-files.py (architecture, then version only).
 * A negative result means the first package is preferred.
 * The RPM version comparison (`rpm.labelCompare`, dnf's `evr_cmp`) is foreign code
 * and is a parameter.
 */
module Ranking {
  import opened Wrappers
  import opened Strings

  /** A package as the files map sees it: `(name, epoch, version, release, arch)`; the epoch may be absent. */
  datatype Nevra = Nevra(name: string, epoch: Option<string>, version: string, release: string, arch: string)

  /** The `(epoch, version, release)` triple handed to the RPM comparison. */
  datatype Evr = Evr(epoch: string, version: string, release: string)

  /** A missing epoch counts as `'0'`. */
  function EvrOf(p: Nevra): (e: Evr)
    ensures e.epoch == (if p.epoch.Some? then p.epoch.value else "0")
    ensures e.version == p.version && e.release == p.release
  {
    Evr(p.epoch.GetOr("0"), p.version, p.release)
  }

  predicate I686(p: Nevra) { p.arch == "i686" }
  predicate Compat(p: Nevra) { StartsWith(p.name, "compat-") }
  predicate Python2(p: Nevra) { StartsWith(p.name, "python2-") }
  predicate Python3(p: Nevra) { StartsWith(p.name, "python3-") }
  predicate Jack(p: Nevra) { StartsWith(p.name, "jack-audio-connection-kit") }
  predicate PipewireJack(p: Nevra) { StartsWith(p.name, "pipewire-jack-audio-connection-kit") }

  /** None of the name rules decides between `p1` and `p2`. */
  predicate NoNameRule(p1: Nevra, p2: Nevra) {
    Compat(p1) == Compat(p2)
    && !(Python2(p1) && Python3(p2)) && !(Python3(p1) && Python2(p2))
    && !(Jack(p1) && PipewireJack(p2)) && !(PipewireJack(p1) && Jack(p2))
  }

  /** A string cannot start with two prefixes that differ at a common index. */
  lemma PrefixesClash(s: string, p1: string, p2: string, k: nat)
    requires StartsWith(s, p1) && k < |p1| && k < |p2| && p1[k] != p2[k]
    ensures !StartsWith(s, p2)
  {
    assert s[..|p1|][k] == s[k];
    assert |p2| <= |s| ==> s[..|p2|][k] == s[k];
  }

  /** The Python and JACK prefixes pairwise exclude one another. */
  lemma PrefixesExclusive(p: Nevra)
    ensures !(Python2(p) && Python3(p))
    ensures Jack(p) ==> !Python2(p) && !Python3(p) && !PipewireJack(p)
    ensures PipewireJack(p) ==> !Python2(p) && !Python3(p)
  {
    if Python2(p) {
      PrefixesClash(p.name, "python2-", "python3-", 6);
    }
    if Jack(p) {
      PrefixesClash(p.name, "jack-audio-connection-kit", "python2-", 0);
      PrefixesClash(p.name, "jack-audio-connection-kit", "python3-", 0);
      PrefixesClash(p.name, "jack-audio-connection-kit", "pipewire-jack-audio-connection-kit", 0);
    }
    if PipewireJack(p) {
      PrefixesClash(p.name, "pipewire-jack-audio-connection-kit", "python2-", 1);
      PrefixesClash(p.name, "pipewire-jack-audio-connection-kit", "python3-", 1);
    }
  }

  /** `package_cmp` of tools/util.py. */
  function PackageCmp(p1: Nevra, p2: Nevra, labelCompare: (Evr, Evr) -> int): (c: int)
    ensures c == -1 || c == 1 || (p1.name == p2.name && c == -labelCompare(EvrOf(p1), EvrOf(p2)))
  {
    if I686(p1) && !I686(p2) then 1
    else if !I686(p1) && I686(p2) then -1
    else if Compat(p1) && !Compat(p2) then 1
    else if Compat(p2) && !Compat(p1) then -1
    else if Python2(p1) && Python3(p2) then 1
    else if Python3(p1) && Python2(p2) then -1
    else if Jack(p1) && PipewireJack(p2) then 1
    else if PipewireJack(p1) && Jack(p2) then -1
    else if Less(p1.name, p2.name) then -1
    else if Less(p2.name, p1.name) then 1
    else
      assert p1.name == p2.name by { LessTrichotomous(p1.name, p2.name); }
      -labelCompare(EvrOf(p1), EvrOf(p2))
  }

  /** An i686 package loses to any other, whatever the names and versions. */
  lemma I686Loses(p: Nevra, q: Nevra, labelCompare: (Evr, Evr) -> int)
    requires I686(p) && !I686(q)
    ensures PackageCmp(p, q, labelCompare) == 1 && PackageCmp(q, p, labelCompare) == -1
  {
  }

  /** Between packages of the same architecture class, a `compat-` name loses. */
  lemma CompatLoses(p: Nevra, q: Nevra, labelCompare: (Evr, Evr) -> int)
    requires I686(p) == I686(q) && Compat(p) && !Compat(q)
    ensures PackageCmp(p, q, labelCompare) == 1 && PackageCmp(q, p, labelCompare) == -1
  {
  }

  /** Otherwise `python3-` beats `python2-`. */
  lemma Python3Wins(p: Nevra, q: Nevra, labelCompare: (Evr, Evr) -> int)
    requires I686(p) == I686(q) && Compat(p) == Compat(q) && Python3(p) && Python2(q)
    ensures PackageCmp(p, q, labelCompare) == -1 && PackageCmp(q, p, labelCompare) == 1
  {
  }

  /** Otherwise the PipeWire JACK library beats the original JACK one. */
  lemma PipewireJackWins(p: Nevra, q: Nevra, labelCompare: (Evr, Evr) -> int)
    requires I686(p) == I686(q) && Compat(p) == Compat(q) && PipewireJack(p) && Jack(q)
    ensures PackageCmp(p, q, labelCompare) == -1 && PackageCmp(q, p, labelCompare) == 1
  {
    PrefixesExclusive(p);
    PrefixesExclusive(q);
  }

  /** Without a special rule, different names decide by string order alone. */
  lemma NamesDecide(p: Nevra, q: Nevra, labelCompare: (Evr, Evr) -> int)
    requires I686(p) == I686(q) && NoNameRule(p, q) && p.name != q.name
    ensures PackageCmp(p, q, labelCompare) == (if Less(p.name, q.name) then -1 else 1)
  {
    LessTrichotomous(p.name, q.name);
  }

  /** For one name, the newer `(epoch, version, release)` is preferred, a missing epoch being `'0'`. */
  lemma NewerWins(p: Nevra, q: Nevra, labelCompare: (Evr, Evr) -> int)
    requires I686(p) == I686(q) && p.name == q.name
    ensures PackageCmp(p, q, labelCompare) == -labelCompare(EvrOf(p), EvrOf(q))
  {
    LessIrreflexive(p.name);
    PrefixesExclusive(p);
  }

  /** Two packages tie exactly when they agree on i686-ness and name and their versions compare equal. */
  lemma {:induction false} TieIff(p: Nevra, q: Nevra, labelCompare: (Evr, Evr) -> int)
    ensures PackageCmp(p, q, labelCompare) == 0
       <==> I686(p) == I686(q) && p.name == q.name && labelCompare(EvrOf(p), EvrOf(q)) == 0
  {
    if I686(p) == I686(q) && p.name == q.name {
      NewerWins(p, q, labelCompare);
    }
  }

  /** Every rule is mirrored, so the order is antisymmetric when the version comparison is. */
  lemma Antisymmetric(p: Nevra, q: Nevra, labelCompare: (Evr, Evr) -> int)
    requires forall a, b :: labelCompare(a, b) == -labelCompare(b, a)
    ensures PackageCmp(p, q, labelCompare) == -PackageCmp(q, p, labelCompare)
  {
    LessTrichotomous(p.name, q.name);
    PrefixesExclusive(p);
    PrefixesExclusive(q);
  }

  /** The result is -1, 0 or 1 whenever the version comparison's is. */
  lemma Range(p: Nevra, q: Nevra, labelCompare: (Evr, Evr) -> int)
    requires forall a, b :: -1 <= labelCompare(a, b) <= 1
    ensures -1 <= PackageCmp(p, q, labelCompare) <= 1
  {
  }

  /**
   * The preference is not transitive: `python2-x` beats `python2z` and `python2z` beats
   * `python3-y` by string order, yet `python3-y` beats `python2-x` by the Python rule.
   */
  lemma NotTransitive(a: Nevra, b: Nevra, c: Nevra, labelCompare: (Evr, Evr) -> int)
    requires a.name == "python2-x" && b.name == "python2z" && c.name == "python3-y"
    requires a.arch == b.arch == c.arch == "x86_64"
    ensures PackageCmp(a, b, labelCompare) == -1
    ensures PackageCmp(b, c, labelCompare) == -1
    ensures PackageCmp(c, a, labelCompare) == -1
  {
    NoRulePython2z(a, b, c);
    CycleNames(a.name, b.name, c.name);
    NamesDecide(a, b, labelCompare);
    NamesDecide(b, c, labelCompare);
    Python3Wins(c, a, labelCompare);
  }

  lemma CycleNames(a: string, b: string, c: string)
    requires a == "python2-x" && b == "python2z" && c == "python3-y"
    ensures Less(a, b) && Less(b, c)
  {
    LessCommonPrefix(a, b, 7);
    LessCommonPrefix(b, c, 6);
  }

  lemma NoRulePython2z(a: Nevra, b: Nevra, c: Nevra)
    requires a.name == "python2-x" && b.name == "python2z" && c.name == "python3-y"
    ensures NoNameRule(a, b) && NoNameRule(b, c) && !Compat(a) && !Compat(c)
  {
    PrefixesClash(b.name, "python2z", "python2-", 7);
    PrefixesClash(b.name, "python2z", "python3-", 6);
    PrefixesClash(a.name, "python2-x", "compat-", 0);
    PrefixesClash(b.name, "python2z", "compat-", 0);
    PrefixesClash(c.name, "python3-y", "compat-", 0);
    PrefixesClash(a.name, "python2-x", "jack-audio-connection-kit", 0);
    PrefixesClash(b.name, "python2z", "jack-audio-connection-kit", 0);
    PrefixesClash(c.name, "python3-y", "jack-audio-connection-kit", 0);
    PrefixesClash(a.name, "python2-x", "pipewire-jack-audio-connection-kit", 1);
    PrefixesClash(b.name, "python2z", "pipewire-jack-audio-connection-kit", 1);
    PrefixesClash(c.name, "python3-y", "pipewire-jack-audio-connection-kit", 1);
  }

  /** Strings that agree up to index `k` and differ there compare by that character. */
  lemma {:induction false} LessCommonPrefix(a: string, b: string, k: nat)
    requires k < |a| && k < |b| && a[..k] == b[..k] && a[k] < b[k]
    ensures Less(a, b)
  {
    if k > 0 {
      assert a[0] == a[..k][0] == b[..k][0] == b[0];
      assert a[1..][..k - 1] == a[1..k] == a[..k][1..];
      assert b[1..][..k - 1] == b[1..k] == b[..k][1..];
      LessCommonPrefix(a[1..], b[1..], k - 1);
    }
  }

  /** `package_cmp` of resolve-files.py: i686 loses, then the newer version wins; names play no part. */
  function LegacyPackageCmp(a: Nevra, b: Nevra, evrCmp: (Nevra, Nevra) -> int): (c: int)
    ensures -1 <= c <= 1
    ensures I686(a) == I686(b) ==> (c < 0 <==> evrCmp(a, b) > 0) && (c == 0 <==> evrCmp(a, b) == 0)
  {
    if I686(a) && !I686(b) then 1
    else if !I686(a) && I686(b) then -1
    else
      var d := -evrCmp(a, b);
      if d < 0 then -1 else if d == 0 then 0 else 1
  }

  /** In the older comparison too, an i686 package always loses. */
  lemma LegacyI686Loses(a: Nevra, b: Nevra, evrCmp: (Nevra, Nevra) -> int)
    requires I686(a) && !I686(b)
    ensures LegacyPackageCmp(a, b, evrCmp) == 1 && LegacyPackageCmp(b, a, evrCmp) == -1
  {
  }

  /** Packages of different names but equal versions tie in the older comparison. */
  lemma LegacyIgnoresNames(a: Nevra, b: Nevra, evrCmp: (Nevra, Nevra) -> int)
    requires I686(a) == I686(b) && evrCmp(a, b) == 0
    ensures LegacyPackageCmp(a, b, evrCmp) == 0
  {
  }

  /** The older comparison is antisymmetric when the version comparison is. */
  lemma LegacyAntisymmetric(a: Nevra, b: Nevra, evrCmp: (Nevra, Nevra) -> int)
    requires forall x, y :: evrCmp(x, y) == -evrCmp(y, x)
    ensures LegacyPackageCmp(a, b, evrCmp) == -LegacyPackageCmp(b, a, evrCmp)
  {
  }
}
