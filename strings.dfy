/**
 * The handful of Python `str` operations the scripts rely on, on `seq<char>`:
 * prefix and suffix tests, `find`, slicing past the end, `strip`, `split`, `join`,
 * `replace`, `lower` and the code-point order that `<` and `sorted` use on strings.
 */
module Strings {

  predicate StartsWith(s: string, p: string) {
    |p| <= |s| && s[..|p|] == p
  }

  predicate EndsWith(s: string, p: string) {
    |p| <= |s| && s[|s| - |p|..] == p
  }

  /** A string that differs from `p` at some index of both does not start with `p`. */
  lemma NotPrefixAt(s: string, p: string, k: nat)
    requires k < |s| && k < |p| && s[k] != p[k]
    ensures !StartsWith(s, p)
  {
    if |p| <= |s| {
      assert s[..|p|][k] == s[k];
    }
  }

  /** Indexing `a + b` inside `a`. */
  lemma PrefixChar(a: string, b: string, k: nat)
    requires k < |a|
    ensures (a + b)[k] == a[k]
  {
  }

  /** Python's slice `s[n:]`, which is empty once `n` passes the end. */
  function Drop(s: string, n: nat): string {
    if n <= |s| then s[n..] else ""
  }

  /** `str.isspace()` for one character. */
  predicate IsSpace(c: char) {
    c == ' ' || ('\t' <= c <= '\r') || ('\U{1C}' <= c <= '\U{1F}')
    || c == '\U{85}' || c == '\U{A0}' || c == '\U{1680}' || ('\U{2000}' <= c <= '\U{200A}')
    || c == '\U{2028}' || c == '\U{2029}' || c == '\U{202F}' || c == '\U{205F}' || c == '\U{3000}'
  }

  /** `s.rstrip()`: the longest prefix of `s` that does not end in white space. */
  function RStrip(s: string): (r: string)
    ensures |r| <= |s| && r == s[..|r|]
    ensures |r| > 0 ==> !IsSpace(r[|r| - 1])
    ensures forall i :: |r| <= i < |s| ==> IsSpace(s[i])
  {
    if |s| > 0 && IsSpace(s[|s| - 1]) then RStrip(s[..|s| - 1]) else s
  }

  /** `s.lstrip()`: the longest suffix of `s` that does not start with white space. */
  function LStrip(s: string): (r: string)
    ensures |r| <= |s| && r == s[|s| - |r|..]
    ensures |r| > 0 ==> !IsSpace(r[0])
    ensures forall i :: 0 <= i < |s| - |r| ==> IsSpace(s[i])
  {
    if |s| > 0 && IsSpace(s[0]) then LStrip(s[1..]) else s
  }

  /** `rstrip()` keeps a string that does not end in white space. */
  lemma RStripKept(s: string)
    requires |s| > 0 && !IsSpace(s[|s| - 1])
    ensures RStrip(s) == s
  {
  }

  /** The last character of `a + b` for a non-empty `a`. */
  lemma LastOfConcat(a: string, b: string)
    requires |a| > 0
    ensures (a + b)[|a + b| - 1] == if |b| > 0 then b[|b| - 1] else a[|a| - 1]
  {
  }

  /** `s.strip()`. */
  function Strip(s: string): string {
    LStrip(RStrip(s))
  }

  /** `str.find` for one character: the first index of `c`, or -1. */
  function FindChar(s: string, c: char): (i: int)
    ensures -1 <= i < |s|
    ensures i >= 0 ==> s[i] == c && c !in s[..i]
    ensures i < 0 ==> c !in s
  {
    if |s| == 0 then -1
    else if s[0] == c then 0
    else
      var j := FindChar(s[1..], c);
      assert s[1..][..if j < 0 then 0 else j] == s[1..1 + if j < 0 then 0 else j];
      if j < 0 then -1 else 1 + j
  }

  /** `str.rfind` for one character: the last index of `c`, or -1. */
  function RFindChar(s: string, c: char): (i: int)
    ensures -1 <= i < |s|
    ensures i >= 0 ==> s[i] == c && c !in s[i + 1..]
    ensures i < 0 ==> c !in s
  {
    if |s| == 0 then -1
    else if s[|s| - 1] == c then |s| - 1
    else
      var j := RFindChar(s[..|s| - 1], c);
      if j >= 0 then assert s[j + 1..] == s[..|s| - 1][j + 1..] + [s[|s| - 1]]; j
      else assert s == s[..|s| - 1] + [s[|s| - 1]]; -1
  }

  /** `sub` occurs in `s` starting at index `i`. */
  predicate At(s: string, i: nat, sub: string) {
    i + |sub| <= |s| && s[i..i + |sub|] == sub
  }

  /** `s.find(sub, i)`: the first index from `i` on at which `sub` occurs, or -1. */
  function FindFrom(s: string, sub: string, i: nat): (r: int)
    requires i <= |s|
    ensures r == -1 || i <= r <= |s|
    ensures r >= 0 ==> At(s, r, sub) && forall k :: i <= k < r ==> !At(s, k, sub)
    ensures r < 0 ==> forall k :: i <= k <= |s| ==> !At(s, k, sub)
    decreases |s| - i
  {
    if At(s, i, sub) then i
    else if i == |s| then -1
    else FindFrom(s, sub, i + 1)
  }

  /** `str.find`. */
  function Find(s: string, sub: string): int {
    FindFrom(s, sub, 0)
  }

  predicate Contains(s: string, sub: string) {
    Find(s, sub) >= 0
  }

  /** `posixpath.basename`: what follows the last slash. */
  function Basename(p: string): string {
    p[RFindChar(p, '/') + 1..]
  }

  /** The base name holds no slash and ends the path. */
  lemma BasenameSpec(p: string)
    ensures '/' !in Basename(p) && EndsWith(p, Basename(p))
  {
    SuffixEnds(p, RFindChar(p, '/') + 1);
  }

  lemma SuffixEnds(s: string, i: nat)
    requires i <= |s|
    ensures EndsWith(s, s[i..])
  {
    assert |s| - |s[i..]| == i;
  }

  /** Removes trailing slashes (the `head.rstrip('/')` of `posixpath.dirname`). */
  function RStripSlashes(s: string): string {
    if |s| > 0 && s[|s| - 1] == '/' then RStripSlashes(s[..|s| - 1]) else s
  }

  predicate AllSlashes(s: string) {
    forall i :: 0 <= i < |s| ==> s[i] == '/'
  }

  /** `posixpath.dirname`: up to the last slash, without its trailing slashes unless it is all slashes. */
  function Dirname(p: string): string {
    var head := p[..RFindChar(p, '/') + 1];
    if head != "" && !AllSlashes(head) then RStripSlashes(head) else head
  }

  /** `sep.join(xs)`. */
  function Join(xs: seq<string>, sep: string): string {
    if |xs| == 0 then ""
    else if |xs| == 1 then xs[0]
    else xs[0] + sep + Join(xs[1..], sep)
  }

  /** `s[i:].split(sep, maxsplit)` for a non-empty separator: at most `maxsplit` splits, left to right. */
  function SplitFrom(s: string, sep: string, i: nat, maxsplit: nat): (r: seq<string>)
    requires |sep| > 0 && i <= |s|
    ensures |r| >= 1
    decreases |s| - i
  {
    var j := FindFrom(s, sep, i);
    if j < 0 || maxsplit == 0 then [s[i..]]
    else [s[i..j]] + SplitFrom(s, sep, j + |sep|, maxsplit - 1)
  }

  /** `s.split(sep, maxsplit)`. */
  function SplitN(s: string, sep: string, maxsplit: nat): seq<string>
    requires |sep| > 0
  {
    SplitFrom(s, sep, 0, maxsplit)
  }

  /** `s.split(sep)`: a string of length n holds at most n separators, so n splits are all of them. */
  function Split(s: string, sep: string): seq<string>
    requires |sep| > 0
  {
    SplitN(s, sep, |s|)
  }

  /** Splitting and joining back with the same separator gives the string back. */
  lemma {:induction false} JoinSplitFrom(s: string, sep: string, i: nat, maxsplit: nat)
    requires |sep| > 0 && i <= |s|
    ensures Join(SplitFrom(s, sep, i, maxsplit), sep) == s[i..]
    decreases |s| - i
  {
    var j := FindFrom(s, sep, i);
    if j >= 0 && maxsplit > 0 {
      var k := j + |sep|;
      assert At(s, j, sep);
      JoinSplitFrom(s, sep, k, maxsplit - 1);
      var tail := SplitFrom(s, sep, k, maxsplit - 1);
      var head := s[i..j];
      assert SplitFrom(s, sep, i, maxsplit) == [head] + tail;
      JoinCons(head, tail, sep);
      assert s[j..k] == sep;
      SliceSplit(s, i, j, k);
    } else {
      assert SplitFrom(s, sep, i, maxsplit) == [s[i..]];
    }
  }

  lemma JoinCons(head: string, tail: seq<string>, sep: string)
    requires |tail| >= 1
    ensures Join([head] + tail, sep) == head + sep + Join(tail, sep)
  {
    assert ([head] + tail)[1..] == tail;
  }

  lemma SliceSplit(s: string, i: nat, j: nat, k: nat)
    requires i <= j <= k <= |s|
    ensures s[i..] == s[i..j] + s[j..k] + s[k..]
  {
  }

  lemma JoinSplitN(s: string, sep: string, maxsplit: nat)
    requires |sep| > 0
    ensures Join(SplitN(s, sep, maxsplit), sep) == s
  {
    JoinSplitFrom(s, sep, 0, maxsplit);
  }

  /** Splitting the tail `b` of `a + b` is splitting `b` on its own. */
  lemma SplitFromShift(a: string, b: string, sep: string, i: nat, maxsplit: nat)
    requires |sep| > 0 && i <= |b|
    ensures SplitFrom(a + b, sep, |a| + i, maxsplit) == SplitFrom(b, sep, i, maxsplit)
  {
    assert (a + b)[|a| + i..] == b[i..];
    SplitFromSame(a + b, b, sep, |a| + i, i, maxsplit);
  }

  /** Two strings with the same text from `i` and from `j` on split the same from there. */
  lemma {:induction false} SplitFromSame(s: string, t: string, sep: string, i: nat, j: nat, maxsplit: nat)
    requires |sep| > 0 && i <= |s| && j <= |t| && s[i..] == t[j..]
    ensures SplitFrom(s, sep, i, maxsplit) == SplitFrom(t, sep, j, maxsplit)
    decreases |s| - i
  {
    FindFromSame(s, t, sep, i, j);
    var p := FindFrom(s, sep, i);
    var q := FindFrom(t, sep, j);
    if p >= 0 && maxsplit > 0 {
      var d := p - i;
      assert s[i..p] == s[i..][..d] && t[j..q] == t[j..][..d];
      assert s[p + |sep|..] == s[i..][d + |sep|..] && t[q + |sep|..] == t[j..][d + |sep|..];
      SplitFromSame(s, t, sep, p + |sep|, q + |sep|, maxsplit - 1);
    } else {
      assert s[i..] == t[j..];
    }
  }

  /** The same text from `i` and from `j` on holds its next `sub` at the same distance. */
  lemma {:induction false} FindFromSame(s: string, t: string, sub: string, i: nat, j: nat)
    requires i <= |s| && j <= |t| && s[i..] == t[j..]
    ensures FindFrom(s, sub, i) < 0 <==> FindFrom(t, sub, j) < 0
    ensures FindFrom(s, sub, i) >= 0 ==> FindFrom(s, sub, i) - i == FindFrom(t, sub, j) - j
    decreases |s| - i
  {
    assert At(s, i, sub) == At(t, j, sub) by {
      if i + |sub| <= |s| {
        assert s[i..i + |sub|] == s[i..][..|sub|] && t[j..j + |sub|] == t[j..][..|sub|];
      }
    }
    if !At(s, i, sub) && i < |s| {
      assert s[i + 1..] == s[i..][1..] && t[j + 1..] == t[j..][1..];
      FindFromSame(s, t, sub, i + 1, j + 1);
    }
  }

  /** Pieces without the separator's only character, joined and split again, come back unchanged. */
  lemma {:induction false} SplitJoin(xs: seq<string>, sep: string)
    requires |sep| == 1 && |xs| >= 1
    requires forall k :: 0 <= k < |xs| ==> sep[0] !in xs[k]
    ensures Split(Join(xs, sep), sep) == xs
  {
    JoinLength(xs, sep);
    SplitNJoin(xs, sep, |Join(xs, sep)|);
  }

  lemma {:induction false} JoinLength(xs: seq<string>, sep: string)
    requires |xs| >= 1 && |sep| >= 1
    ensures |Join(xs, sep)| >= |xs| - 1
  {
    if |xs| > 1 {
      JoinLength(xs[1..], sep);
    }
  }

  lemma {:induction false} SplitNJoin(xs: seq<string>, sep: string, n: nat)
    requires |sep| == 1 && |xs| >= 1 && n >= |xs| - 1
    requires forall k :: 0 <= k < |xs| ==> sep[0] !in xs[k]
    ensures SplitN(Join(xs, sep), sep, n) == xs
    decreases |xs|
  {
    var s := Join(xs, sep);
    if |xs| == 1 {
      NoSepNotFound(xs[0], sep);
      assert s[0..] == s;
    } else {
      var x := xs[0];
      var rest := Join(xs[1..], sep);
      assert s == x + sep + rest;
      FirstSep(x, sep, rest);
      assert s[0..|x|] == x;
      SplitFromShift(x + sep, rest, sep, 0, n - 1);
      assert (x + sep) + rest == s;
      SplitNJoin(xs[1..], sep, n - 1);
    }
  }

  lemma NoSepNotFound(x: string, sep: string)
    requires |sep| == 1 && sep[0] !in x
    ensures FindFrom(x, sep, 0) < 0
  {
    forall k | 0 <= k <= |x| ensures !At(x, k, sep) {
      if k + 1 <= |x| {
        assert x[k..k + 1][0] == x[k];
      }
    }
  }

  lemma FirstSep(x: string, sep: string, rest: string)
    requires |sep| == 1 && sep[0] !in x
    ensures FindFrom(x + sep + rest, sep, 0) == |x|
  {
    var s := x + sep + rest;
    assert s[|x|..|x| + 1] == sep;
    assert At(s, |x|, sep);
    forall k | 0 <= k < |x| ensures !At(s, k, sep) {
      assert s[k..k + 1][0] == x[k];
    }
  }

  /** No character of `t` is white space. */
  predicate NoSpace(t: string) {
    forall j :: 0 <= j < |t| ==> !IsSpace(t[j])
  }

  /** `s.split()` with no argument: the maximal runs of non-white-space characters. */
  function SplitWhitespace(s: string): seq<string>
    decreases |s|
  {
    var t := LStrip(s);
    if |t| == 0 then []
    else
      var k := FirstSpace(t);
      assert k > 0;
      [t[..k]] + SplitWhitespace(t[k..])
  }

  /** Every token is non-empty and free of white space. */
  predicate Tokens(r: seq<string>) {
    forall k :: 0 <= k < |r| ==> |r[k]| > 0 && NoSpace(r[k])
  }

  /** What `s.split()` returns are tokens. */
  lemma {:induction false} SplitWhitespaceTokens(s: string)
    ensures Tokens(SplitWhitespace(s))
    decreases |s|
  {
    var t := LStrip(s);
    if |t| > 0 {
      var k := FirstSpace(t);
      var head := t[..k];
      var rest := SplitWhitespace(t[k..]);
      SplitWhitespaceTokens(t[k..]);
      assert |head| > 0 && NoSpace(head);
      ConsTokens(head, rest);
    }
  }

  lemma ConsTokens(head: string, rest: seq<string>)
    requires |head| > 0 && NoSpace(head) && Tokens(rest)
    ensures Tokens([head] + rest)
  {
    var r := [head] + rest;
    forall k | 0 <= k < |r| ensures |r[k]| > 0 && NoSpace(r[k]) {
      if k > 0 {
        assert r[k] == rest[k - 1];
      }
    }
  }

  /** The index of the first white-space character of `s`, or `|s|`. */
  function FirstSpace(s: string): (k: nat)
    ensures 0 < |s| && !IsSpace(s[0]) ==> k > 0
    ensures k <= |s| && NoSpace(s[..k])
    ensures k < |s| ==> IsSpace(s[k])
  {
    if |s| == 0 || IsSpace(s[0]) then 0
    else
      var k := 1 + FirstSpace(s[1..]);
      assert s[..k] == [s[0]] + s[1..][..k - 1];
      k
  }

  /** Tokens without white space, joined by single spaces, split back into the same tokens. */
  lemma {:induction false} SplitWhitespaceJoin(xs: seq<string>)
    requires Tokens(xs)
    ensures SplitWhitespace(Join(xs, " ")) == xs
    decreases |xs|, 1
  {
    if |xs| == 0 {
      assert Join(xs, " ") == "";
    } else if |xs| == 1 {
      TokensTail(xs);
      SpaceFreeSplit(xs[0], "");
      assert xs[0] + "" == xs[0];
    } else {
      SplitWhitespaceJoinStep(xs);
    }
  }

  lemma {:induction false} SplitWhitespaceJoinStep(xs: seq<string>)
    requires Tokens(xs) && |xs| > 1
    ensures SplitWhitespace(Join(xs, " ")) == xs
    decreases |xs|, 0
  {
    var x, tail := xs[0], xs[1..];
    TokensTail(xs);
    var rest := Join(tail, " ");
    SplitWhitespaceJoin(tail);
    JoinFirst(xs, " ");
    SpaceFreeSplit(x, " " + rest);
    SkipSpace(rest);
    HeadTail(xs);
  }

  lemma HeadTail<T>(xs: seq<T>)
    requires |xs| > 0
    ensures [xs[0]] + xs[1..] == xs
  {
  }

  lemma TokensTail(xs: seq<string>)
    requires Tokens(xs) && |xs| > 0
    ensures |xs[0]| > 0 && NoSpace(xs[0]) && Tokens(xs[1..])
  {
    forall k | 0 <= k < |xs| - 1 ensures |xs[1..][k]| > 0 && NoSpace(xs[1..][k]) {
      assert xs[1..][k] == xs[k + 1];
    }
  }

  /** `sep.join(xs)` for two or more pieces: the first piece, the separator, the rest joined. */
  lemma JoinFirst(xs: seq<string>, sep: string)
    requires |xs| > 1
    ensures Join(xs, sep) == xs[0] + (sep + Join(xs[1..], sep))
  {
  }

  lemma Assoc4(a: string, b: string, c: string, d: string)
    ensures a + b + c + d == a + (b + (c + d))
  {
  }

  lemma SkipSpace(t: string)
    ensures SplitWhitespace(" " + t) == SplitWhitespace(t)
  {
    LStripSpace(t);
    SameLStrip(" " + t, t);
  }

  lemma LStripSpace(t: string)
    ensures LStrip(" " + t) == LStrip(t)
  {
    assert (" " + t)[1..] == t;
  }

  /** `split()` only looks at what `lstrip()` leaves. */
  lemma SameLStrip(s: string, t: string)
    requires LStrip(s) == LStrip(t)
    ensures SplitWhitespace(s) == SplitWhitespace(t)
  {
  }

  lemma LStripJoin(xs: seq<string>)
    requires |xs| >= 1 && |xs[0]| > 0 && !IsSpace(xs[0][0])
    ensures LStrip(Join(xs, " ")) == Join(xs, " ")
  {
    if |xs| > 1 {
      assert Join(xs, " ")[0] == xs[0][0];
    }
  }

  /** A leading space-free token followed by nothing or by white space splits off as one token. */
  lemma SpaceFreeSplit(x: string, rest: string)
    requires |x| > 0 && NoSpace(x)
    requires |rest| == 0 || IsSpace(rest[0])
    ensures SplitWhitespace(x + rest) == [x] + SplitWhitespace(rest)
  {
    var s := x + rest;
    assert s[0] == x[0];
    assert LStrip(s) == s;
    FirstSpaceOf(x, rest);
    assert s[..|x|] == x;
    assert s[|x|..] == rest;
  }

  lemma {:induction false} FirstSpaceOf(x: string, rest: string)
    requires NoSpace(x)
    requires |rest| == 0 || IsSpace(rest[0])
    ensures FirstSpace(x + rest) == |x|
  {
    if |x| > 0 {
      var s := x + rest;
      assert s[0] == x[0];
      assert s[1..] == x[1..] + rest;
      FirstSpaceOf(x[1..], rest);
    }
  }

  /** `s.replace(pat, rep)` for a non-empty `pat`: every occurrence, left to right, without overlaps. */
  function Replace(s: string, pat: string, rep: string): string
    requires |pat| > 0
    decreases |s|
  {
    if |s| == 0 then ""
    else if StartsWith(s, pat) then rep + Replace(s[|pat|..], pat, rep)
    else [s[0]] + Replace(s[1..], pat, rep)
  }

  /** `str.lower()` on ASCII letters (other scripts' case mappings are not modelled). */
  function LowerChar(c: char): char {
    if 'A' <= c <= 'Z' then (c as int + 32) as char else c
  }

  function Lower(s: string): (r: string)
    ensures |r| == |s| && forall i :: 0 <= i < |s| ==> r[i] == LowerChar(s[i])
  {
    seq(|s|, i requires 0 <= i < |s| => LowerChar(s[i]))
  }

  /** Python's `a < b` on strings: code points compared left to right, a proper prefix first. */
  predicate Less(a: string, b: string) {
    if |a| == 0 then |b| > 0
    else if |b| == 0 then false
    else if a[0] != b[0] then a[0] < b[0]
    else Less(a[1..], b[1..])
  }

  /** `a <= b`. */
  predicate LessEq(a: string, b: string) {
    !Less(b, a)
  }

  lemma {:induction false} LessIrreflexive(a: string)
    ensures !Less(a, a)
  {
    if |a| > 0 {
      LessIrreflexive(a[1..]);
    }
  }

  lemma {:induction false} LessTransitive(a: string, b: string, c: string)
    requires Less(a, b) && Less(b, c)
    ensures Less(a, c)
  {
    if |a| > 0 && |b| > 0 && |c| > 0 && a[0] == b[0] && b[0] == c[0] {
      LessTransitive(a[1..], b[1..], c[1..]);
    }
  }

  /** Exactly one of `a < b`, `a == b`, `b < a` holds. */
  lemma {:induction false} LessTrichotomous(a: string, b: string)
    ensures Less(a, b) || a == b || Less(b, a)
    ensures !(Less(a, b) && Less(b, a))
    ensures a == b ==> !Less(a, b)
  {
    if |a| > 0 && |b| > 0 && a[0] == b[0] {
      LessTrichotomous(a[1..], b[1..]);
      if a[1..] == b[1..] {
        assert a == [a[0]] + a[1..] && b == [b[0]] + b[1..];
      }
    }
    if a == b {
      LessIrreflexive(a);
    }
  }

  /** `<=` on strings is a total order. */
  lemma LessEqTotalOrder()
    ensures forall a, b :: LessEq(a, b) || LessEq(b, a)
    ensures forall a, b, c :: LessEq(a, b) && LessEq(b, c) ==> LessEq(a, c)
    ensures forall a, b :: LessEq(a, b) && LessEq(b, a) ==> a == b
  {
    forall a, b ensures LessEq(a, b) || LessEq(b, a) {
      LessTrichotomous(a, b);
    }
    forall a, b, c | LessEq(a, b) && LessEq(b, c) ensures LessEq(a, c) {
      LessTrichotomous(a, b);
      LessTrichotomous(b, c);
      LessTrichotomous(a, c);
      if Less(c, a) {
        if a == b {
        } else if b == c {
        } else {
          LessTransitive(a, b, c);
        }
      }
    }
    forall a, b | LessEq(a, b) && LessEq(b, a) ensures a == b {
      LessTrichotomous(a, b);
    }
  }
}
