/**
 * The path tables both resolvers consult before looking a path up: an exact ignore set,
 * ignore patterns, an exact rename table and an ordered list of rename patterns, plus the
 * package-name patterns that drop a provider. Regular expressions are modelled by the
 * three anchored shapes the tables mostly use and by prefix rewrites with one group.
 */
module PathRules {
  import opened Strings

  /**
   * A pattern applied with `re.match`, which anchors at the start of the string:
   * `^s$` is `Exact(s)`; `^p`, `p.*` and `^p.*$` are `Prefix(p)`; `^.*p$` and `.*p$` are `Suffix(p)`.
   */
  datatype Pattern = Exact(s: string) | Prefix(p: string) | Suffix(p: string)

  predicate Matches(pat: Pattern, s: string) {
    match pat
    case Exact(e) => s == e
    case Prefix(p) => StartsWith(s, p)
    case Suffix(p) => EndsWith(s, p)
  }

  /** `any(p.match(s) is not None for p in pats)`. */
  predicate AnyMatch(pats: seq<Pattern>, s: string) {
    exists i :: 0 <= i < |pats| && Matches(pats[i], s)
  }

  /** The `skip` loop: set a flag for every pattern that matches. */
  method MatchesAny(pats: seq<Pattern>, s: string) returns (skip: bool)
    ensures skip <==> AnyMatch(pats, s)
  {
    skip := false;
    for i := 0 to |pats|
      invariant skip <==> exists k :: 0 <= k < i && Matches(pats[k], s)
    {
      if Matches(pats[i], s) {
        skip := true;
      }
    }
  }

  /**
   * The rename pattern `(r'^strip(keep.*)', r'into\1')`: a path beginning with `strip + keep`
   * has its leading `strip` replaced by `into`; the captured rest is kept.
   */
  datatype Rewrite = Rewrite(strip: string, keep: string, into: string)

  predicate RewriteMatches(w: Rewrite, r: string) {
    StartsWith(r, w.strip + w.keep)
  }

  /** `p.sub(replacement, r)` where `p` matches `r`: the single anchored match covers all of `r`. */
  function ApplyRewrite(w: Rewrite, r: string): (r': string)
    requires RewriteMatches(w, r)
    ensures RewriteMatches(Rewrite(w.into, w.keep, w.strip), r')
    ensures |r'| == |r| - |w.strip| + |w.into|
  {
    var r' := w.into + r[|w.strip|..];
    assert r'[..|w.into + w.keep|] == w.into + r[|w.strip|..|w.strip + w.keep|];
    r'
  }

  /** Undoing a rewrite with the rule read backwards gives the path back. */
  lemma RewriteInverse(w: Rewrite, r: string)
    requires RewriteMatches(w, r)
    ensures ApplyRewrite(Rewrite(w.into, w.keep, w.strip), ApplyRewrite(w, r)) == r
  {
    var r' := ApplyRewrite(w, r);
    assert r'[|w.into|..] == r[|w.strip|..];
    assert r == w.strip + r[|w.strip|..];
  }

  /** A path made of the rule's `strip` and a rest beginning with `keep` gets `into` in front of that rest. */
  lemma ApplyOnPrefix(w: Rewrite, rest: string)
    requires StartsWith(rest, w.keep)
    ensures RewriteMatches(w, w.strip + rest)
    ensures ApplyRewrite(w, w.strip + rest) == w.into + rest
  {
    var r := w.strip + rest;
    assert r[..|w.strip + w.keep|] == w.strip + rest[..|w.keep|];
    assert r[|w.strip|..] == rest;
  }

  /** The rename-pattern loop: each rule in turn rewrites the current path when it matches it. */
  function ApplyRewrites(ws: seq<Rewrite>, r: string): string
    decreases |ws|
  {
    if |ws| == 0 then r
    else ApplyRewrites(ws[1..], if RewriteMatches(ws[0], r) then ApplyRewrite(ws[0], r) else r)
  }

  /** The loop `for p, replacement in rename_compiled: if p.match(r): r = p.sub(replacement, r)`. */
  method RewriteAll(ws: seq<Rewrite>, r: string) returns (r': string)
    ensures r' == ApplyRewrites(ws, r)
  {
    r' := r;
    for i := 0 to |ws|
      invariant ApplyRewrites(ws[i..], r') == ApplyRewrites(ws, r)
    {
      assert ws[i..][1..] == ws[i + 1..];
      if RewriteMatches(ws[i], r') {
        r' := ApplyRewrite(ws[i], r');
      }
    }
  }

  /** Rules apply in list order: running two lists one after the other is running their concatenation. */
  lemma {:induction false} RewritesCompose(ws1: seq<Rewrite>, ws2: seq<Rewrite>, r: string)
    ensures ApplyRewrites(ws1 + ws2, r) == ApplyRewrites(ws2, ApplyRewrites(ws1, r))
    decreases |ws1|
  {
    if |ws1| > 0 {
      assert (ws1 + ws2)[1..] == ws1[1..] + ws2;
      var next := if RewriteMatches(ws1[0], r) then ApplyRewrite(ws1[0], r) else r;
      RewritesCompose(ws1[1..], ws2, next);
    } else {
      assert ws1 + ws2 == ws2;
    }
  }

  /** A rule that matches neither the path nor anything it becomes leaves it alone. */
  lemma {:induction false} NoRewriteMatches(ws: seq<Rewrite>, r: string)
    requires forall i :: 0 <= i < |ws| ==> !RewriteMatches(ws[i], r)
    ensures ApplyRewrites(ws, r) == r
    decreases |ws|
  {
    if |ws| > 0 {
      NoRewriteMatches(ws[1..], r);
    }
  }

  /** The four tables the resolution loop reads. */
  datatype Rules = Rules(
    ignore: set<string>,
    ignorePatterns: seq<Pattern>,
    rename: map<string, string>,
    renamePatterns: seq<Rewrite>)

  /** `r in ignore`, or some ignore pattern matches `r`. */
  predicate Ignored(rules: Rules, r: string) {
    r in rules.ignore || AnyMatch(rules.ignorePatterns, r)
  }

  /** At most one exact rename, then every matching rename pattern in order. */
  function Renamed(rules: Rules, r: string): string {
    ApplyRewrites(rules.renamePatterns, if r in rules.rename then rules.rename[r] else r)
  }

  /**
   * The exact table is looked up once: a renamed path is not looked up again, even when it
   * is itself a key of the table.
   */
  lemma ExactRenameOnce(rules: Rules, r: string)
    requires r in rules.rename
    requires forall i :: 0 <= i < |rules.renamePatterns| ==> !RewriteMatches(rules.renamePatterns[i], rules.rename[r])
    ensures Renamed(rules, r) == rules.rename[r]
  {
    NoRewriteMatches(rules.renamePatterns, rules.rename[r]);
  }

  /** A path that is neither a key of the exact table nor matched by any rule keeps its name. */
  lemma UnrenamedKeepsName(rules: Rules, r: string)
    requires r !in rules.rename
    requires forall i :: 0 <= i < |rules.renamePatterns| ==> !RewriteMatches(rules.renamePatterns[i], r)
    ensures Renamed(rules, r) == r
  {
    NoRewriteMatches(rules.renamePatterns, r);
  }

  /** `{prefix + x for x in names}`. */
  function Prefixed(prefix: string, names: seq<string>): (s: set<string>)
    ensures forall i :: 0 <= i < |names| ==> prefix + names[i] in s
    ensures forall x :: x in s ==> exists i :: 0 <= i < |names| && x == prefix + names[i]
  {
    set i | 0 <= i < |names| :: prefix + names[i]
  }

  /** `{from + k: to + v for k, v in pairs}`, later pairs winning as in a dict display (PrefixedMapLastWins). */
  function PrefixedMap(from: string, to: string, pairs: seq<(string, string)>): (m: map<string, string>)
    ensures forall i :: 0 <= i < |pairs| ==> from + pairs[i].0 in m
    ensures forall k :: k in m ==> exists i :: 0 <= i < |pairs| && k == from + pairs[i].0 && m[k] == to + pairs[i].1
    decreases |pairs|
  {
    if |pairs| == 0 then map[]
    else
      var init := pairs[..|pairs| - 1];
      var last := pairs[|pairs| - 1];
      var m := PrefixedMap(from, to, init);
      assert forall i :: 0 <= i < |init| ==> init[i] == pairs[i];
      m[from + last.0 := to + last.1]
  }

  /** The last pair with a given key decides that key's value. */
  lemma {:induction false} PrefixedMapLastWins(from: string, to: string, pairs: seq<(string, string)>, i: nat)
    requires i < |pairs|
    requires forall j :: i < j < |pairs| ==> pairs[j].0 != pairs[i].0
    ensures PrefixedMap(from, to, pairs)[from + pairs[i].0] == to + pairs[i].1
    decreases |pairs|
  {
    var init := pairs[..|pairs| - 1];
    var last := pairs[|pairs| - 1];
    if i < |pairs| - 1 {
      assert init[i] == pairs[i];
      forall j | i < j < |init| ensures init[j].0 != init[i].0 {
        assert init[j] == pairs[j];
      }
      PrefixedMapLastWins(from, to, init, i);
      PrefixInjective(from, last.0, pairs[i].0);
    }
  }

  /** Prepending the same prefix keeps different strings different. */
  lemma PrefixInjective(p: string, a: string, b: string)
    ensures p + a == p + b ==> a == b
  {
    assert (p + a)[|p|..] == a && (p + b)[|p|..] == b;
  }
}
