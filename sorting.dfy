/**
 * Python's `sorted(xs, key=...)` and `list.sort(key=...)`: a stable sort by a key under
 * any total preorder, here as an insertion sort, with the facts the scripts rely on:
 * the result is ordered, is a permutation of the input, and keeps the input order of
 * elements with equal keys.
 */
module Sorting {
  import opened Strings

  /** `le` is total and transitive: the order Python's `<` gives on the keys used here. */
  ghost predicate TotalPreorder<K(!new)>(le: (K, K) -> bool) {
    (forall a, b :: le(a, b) || le(b, a))
    && (forall a, b, c :: le(a, b) && le(b, c) ==> le(a, c))
  }

  ghost predicate SortedBy<T, K(!new)>(s: seq<T>, key: T -> K, le: (K, K) -> bool) {
    forall i, j :: 0 <= i < j < |s| ==> le(key(s[i]), key(s[j]))
  }

  /** Ordered by `key`, and among equal keys ordered by `tie`. */
  ghost predicate SortedThen<T, K(!new)>(s: seq<T>, key: T -> K, le: (K, K) -> bool, tie: (T, T) -> bool) {
    forall i, j :: 0 <= i < j < |s| ==>
      le(key(s[i]), key(s[j])) && (le(key(s[j]), key(s[i])) ==> tie(s[i], s[j]))
  }

  /** Puts `x` after every element whose key is not above its own. */
  function Insert<T, K(!new)>(s: seq<T>, x: T, key: T -> K, le: (K, K) -> bool): (r: seq<T>)
    ensures multiset(r) == multiset(s) + multiset{x}
  {
    if |s| == 0 then [x]
    else if le(key(s[0]), key(x)) then
      assert s == [s[0]] + s[1..];
      [s[0]] + Insert(s[1..], x, key, le)
    else [x] + s
  }

  /** `sorted(s, key=key)`, where `le` is `<=` on the keys. */
  function SortBy<T, K(!new)>(s: seq<T>, key: T -> K, le: (K, K) -> bool): (r: seq<T>)
    ensures multiset(r) == multiset(s)
  {
    if |s| == 0 then []
    else
      assert s == s[..|s| - 1] + [s[|s| - 1]];
      Insert(SortBy(s[..|s| - 1], key, le), s[|s| - 1], key, le)
  }

  lemma {:induction false} InsertSorted<T, K(!new)>(s: seq<T>, x: T, key: T -> K, le: (K, K) -> bool)
    requires TotalPreorder(le) && SortedBy(s, key, le)
    ensures SortedBy(Insert(s, x, key, le), key, le)
    decreases |s|, 1
  {
    if |s| > 0 {
      if le(key(s[0]), key(x)) {
        InsertSortedAfter(s, x, key, le);
      } else {
        forall e | e in s ensures le(key(x), key(e)) {
          var k :| 0 <= k < |s| && s[k] == e;
        }
        ConsSorted(x, s, key, le);
      }
    }
  }

  lemma {:induction false} InsertSortedAfter<T, K(!new)>(s: seq<T>, x: T, key: T -> K, le: (K, K) -> bool)
    requires TotalPreorder(le) && SortedBy(s, key, le) && |s| > 0 && le(key(s[0]), key(x))
    ensures SortedBy(Insert(s, x, key, le), key, le)
    decreases |s|, 0
  {
    var rest := Insert(s[1..], x, key, le);
    InsertSorted(s[1..], x, key, le);
    forall e | e in rest ensures le(key(s[0]), key(e)) {
      InsertFrom(s[1..], x, key, le, e);
      if e != x {
        var k :| 0 <= k < |s[1..]| && s[1..][k] == e;
        assert s[k + 1] == e;
      }
    }
    ConsSorted(s[0], rest, key, le);
  }

  /** Whatever `Insert` returns is the new element or one of the old ones. */
  lemma InsertFrom<T, K(!new)>(s: seq<T>, x: T, key: T -> K, le: (K, K) -> bool, e: T)
    requires e in Insert(s, x, key, le)
    ensures e == x || e in s
  {
    assert e in multiset(Insert(s, x, key, le));
  }

  /** An element at most as large as everything in a sorted sequence can go in front. */
  lemma ConsSorted<T, K(!new)>(y: T, s: seq<T>, key: T -> K, le: (K, K) -> bool)
    requires SortedBy(s, key, le) && forall e :: e in s ==> le(key(y), key(e))
    ensures SortedBy([y] + s, key, le)
  {
    var r := [y] + s;
    forall i, j | 0 <= i < j < |r| ensures le(key(r[i]), key(r[j])) {
      assert r[j] == s[j - 1];
      if i > 0 {
        assert r[i] == s[i - 1];
      }
    }
  }

  /** The sort orders its result by the key. */
  lemma {:induction false} SortBySorted<T, K(!new)>(s: seq<T>, key: T -> K, le: (K, K) -> bool)
    requires TotalPreorder(le)
    ensures SortedBy(SortBy(s, key, le), key, le)
  {
    if |s| > 0 {
      SortBySorted(s[..|s| - 1], key, le);
      InsertSorted(SortBy(s[..|s| - 1], key, le), s[|s| - 1], key, le);
    }
  }

  lemma {:induction false} InsertStable<T, K(!new)>(s: seq<T>, x: T, key: T -> K, le: (K, K) -> bool, tie: (T, T) -> bool)
    requires TotalPreorder(le) && SortedThen(s, key, le, tie)
    requires forall k :: 0 <= k < |s| ==> tie(s[k], x)
    ensures SortedThen(Insert(s, x, key, le), key, le, tie)
    decreases |s|, 1
  {
    if |s| > 0 {
      if le(key(s[0]), key(x)) {
        InsertStableAfter(s, x, key, le, tie);
      } else {
        forall e | e in s ensures le(key(x), key(e)) && (le(key(e), key(x)) ==> tie(x, e)) {
          var k :| 0 <= k < |s| && s[k] == e;
          assert le(key(s[0]), key(e));
        }
        ConsSortedThen(x, s, key, le, tie);
      }
    }
  }

  lemma {:induction false} InsertStableAfter<T, K(!new)>(s: seq<T>, x: T, key: T -> K, le: (K, K) -> bool, tie: (T, T) -> bool)
    requires TotalPreorder(le) && SortedThen(s, key, le, tie)
    requires forall k :: 0 <= k < |s| ==> tie(s[k], x)
    requires |s| > 0 && le(key(s[0]), key(x))
    ensures SortedThen(Insert(s, x, key, le), key, le, tie)
    decreases |s|, 0
  {
    var rest := Insert(s[1..], x, key, le);
    TailSortedThen(s, x, key, le, tie);
    InsertStable(s[1..], x, key, le, tie);
    forall e | e in rest ensures le(key(s[0]), key(e)) && (le(key(e), key(s[0])) ==> tie(s[0], e)) {
      InsertFrom(s[1..], x, key, le, e);
      if e != x {
        var k :| 0 <= k < |s[1..]| && s[1..][k] == e;
        assert s[k + 1] == e;
      }
    }
    ConsSortedThen(s[0], rest, key, le, tie);
  }

  lemma TailSortedThen<T, K(!new)>(s: seq<T>, x: T, key: T -> K, le: (K, K) -> bool, tie: (T, T) -> bool)
    requires SortedThen(s, key, le, tie) && |s| > 0
    requires forall k :: 0 <= k < |s| ==> tie(s[k], x)
    ensures SortedThen(s[1..], key, le, tie)
    ensures forall k :: 0 <= k < |s[1..]| ==> tie(s[1..][k], x)
  {
    var t := s[1..];
    forall i, j | 0 <= i < j < |t| ensures le(key(t[i]), key(t[j])) && (le(key(t[j]), key(t[i])) ==> tie(t[i], t[j])) {
      assert t[i] == s[i + 1] && t[j] == s[j + 1];
    }
    forall k | 0 <= k < |t| ensures tie(t[k], x) {
      assert t[k] == s[k + 1];
    }
  }

  /** An element that may precede everything in a sequence ordered with ties can go in front. */
  lemma ConsSortedThen<T, K(!new)>(y: T, s: seq<T>, key: T -> K, le: (K, K) -> bool, tie: (T, T) -> bool)
    requires SortedThen(s, key, le, tie)
    requires forall e :: e in s ==> le(key(y), key(e)) && (le(key(e), key(y)) ==> tie(y, e))
    ensures SortedThen([y] + s, key, le, tie)
  {
    var r := [y] + s;
    forall i, j | 0 <= i < j < |r| ensures le(key(r[i]), key(r[j])) && (le(key(r[j]), key(r[i])) ==> tie(r[i], r[j])) {
      assert r[j] == s[j - 1];
      if i > 0 {
        assert r[i] == s[i - 1];
      }
    }
  }

  /**
   * Stability: when the input is already strictly ordered by `tie` (as `sorted` of a
   * dict's keys is), the result is ordered by the key and, among equal keys, by `tie`.
   */
  lemma {:induction false} SortByStable<T, K(!new)>(s: seq<T>, key: T -> K, le: (K, K) -> bool, tie: (T, T) -> bool)
    requires TotalPreorder(le)
    requires forall i, j :: 0 <= i < j < |s| ==> tie(s[i], s[j])
    ensures SortedThen(SortBy(s, key, le), key, le, tie)
  {
    if |s| > 0 {
      var init := s[..|s| - 1];
      var x := s[|s| - 1];
      SortByStable(init, key, le, tie);
      var sorted := SortBy(init, key, le);
      forall k | 0 <= k < |sorted| ensures tie(sorted[k], x) {
        assert sorted[k] in multiset(sorted);
        assert sorted[k] in multiset(init);
        var m :| 0 <= m < |init| && init[m] == sorted[k];
        assert s[m] == sorted[k];
      }
      InsertStable(sorted, x, key, le, tie);
    }
  }

  /** `le` ranks the keys of `e` and `k` level. */
  ghost predicate SameRank<T, K>(e: T, key: T -> K, le: (K, K) -> bool, k: K) {
    le(key(e), k) && le(k, key(e))
  }

  /** The elements of `s` whose key is level with `k`, in their order in `s`. */
  ghost function SameRankIn<T, K>(s: seq<T>, key: T -> K, le: (K, K) -> bool, k: K): seq<T> {
    if |s| == 0 then []
    else RankPart(s[0], key, le, k) + SameRankIn(s[1..], key, le, k)
  }

  /** The part one element contributes to `SameRankIn`. */
  ghost function RankPart<T, K>(e: T, key: T -> K, le: (K, K) -> bool, k: K): seq<T> {
    if SameRank(e, key, le, k) then [e] else []
  }

  lemma SameRankCons<T, K>(e: T, s: seq<T>, key: T -> K, le: (K, K) -> bool, k: K)
    ensures SameRankIn([e] + s, key, le, k) == RankPart(e, key, le, k) + SameRankIn(s, key, le, k)
  {
    var t := [e] + s;
    assert t[0] == e && t[1..] == s;
  }

  lemma {:induction false} SameRankAppend<T, K>(a: seq<T>, b: seq<T>, key: T -> K, le: (K, K) -> bool, k: K)
    ensures SameRankIn(a + b, key, le, k) == SameRankIn(a, key, le, k) + SameRankIn(b, key, le, k)
  {
    if |a| == 0 {
      assert a + b == b;
    } else {
      assert a == [a[0]] + a[1..] && a + b == [a[0]] + (a[1..] + b);
      SameRankCons(a[0], a[1..] + b, key, le, k);
      SameRankAppend(a[1..], b, key, le, k);
      SameRankCons(a[0], a[1..], key, le, k);
    }
  }

  lemma {:induction false} SameRankNone<T, K>(s: seq<T>, key: T -> K, le: (K, K) -> bool, k: K)
    requires forall i :: 0 <= i < |s| ==> !SameRank(s[i], key, le, k)
    ensures SameRankIn(s, key, le, k) == []
  {
    if |s| > 0 {
      SameRankNone(s[1..], key, le, k);
    }
  }

  /** Inserting into a sorted sequence puts `x` after every element of the same rank. */
  lemma {:induction false} InsertSameRank<T, K(!new)>(s: seq<T>, x: T, key: T -> K, le: (K, K) -> bool, k: K)
    requires TotalPreorder(le) && SortedBy(s, key, le)
    ensures SameRankIn(Insert(s, x, key, le), key, le, k) == SameRankIn(s, key, le, k) + RankPart(x, key, le, k)
    decreases |s|, 1
  {
    if |s| == 0 {
      SameRankCons(x, [], key, le, k);
    } else if le(key(s[0]), key(x)) {
      InsertSameRankAfter(s, x, key, le, k);
    } else {
      InsertSameRankBefore(s, x, key, le, k);
    }
  }

  lemma {:induction false} InsertSameRankAfter<T, K(!new)>(s: seq<T>, x: T, key: T -> K, le: (K, K) -> bool, k: K)
    requires TotalPreorder(le) && SortedBy(s, key, le) && |s| > 0 && le(key(s[0]), key(x))
    ensures SameRankIn(Insert(s, x, key, le), key, le, k) == SameRankIn(s, key, le, k) + RankPart(x, key, le, k)
    decreases |s|, 0
  {
    var rest := Insert(s[1..], x, key, le);
    assert Insert(s, x, key, le) == [s[0]] + rest;
    assert SortedBy(s[1..], key, le);
    InsertSameRank(s[1..], x, key, le, k);
    SameRankCons(s[0], rest, key, le, k);
    var a, b, c := RankPart(s[0], key, le, k), SameRankIn(s[1..], key, le, k), RankPart(x, key, le, k);
    assert a + (b + c) == (a + b) + c;
  }

  /** `x` goes first, and nothing after it, all ranked above it, shares its rank. */
  lemma InsertSameRankBefore<T, K(!new)>(s: seq<T>, x: T, key: T -> K, le: (K, K) -> bool, k: K)
    requires TotalPreorder(le) && SortedBy(s, key, le) && |s| > 0 && !le(key(s[0]), key(x))
    ensures SameRankIn(Insert(s, x, key, le), key, le, k) == SameRankIn(s, key, le, k) + RankPart(x, key, le, k)
  {
    assert Insert(s, x, key, le) == [x] + s;
    SameRankCons(x, s, key, le, k);
    if SameRank(x, key, le, k) {
      forall i | 0 <= i < |s| ensures !SameRank(s[i], key, le, k) {
        RankedAbove(s, x, key, le, k, i);
      }
      SameRankNone(s, key, le, k);
    }
  }

  /** Every element of a sorted sequence that starts above `x` is ranked above `x`. */
  lemma RankedAbove<T, K(!new)>(s: seq<T>, x: T, key: T -> K, le: (K, K) -> bool, k: K, i: nat)
    requires TotalPreorder(le) && SortedBy(s, key, le) && i < |s| && !le(key(s[0]), key(x))
    requires SameRank(x, key, le, k)
    ensures !SameRank(s[i], key, le, k)
  {
  }

  /**
   * Stability: the elements of any one rank come out of `SortBy` in the order they went in.
   */
  lemma {:induction false} SortByKeepsRank<T, K(!new)>(s: seq<T>, key: T -> K, le: (K, K) -> bool, k: K)
    requires TotalPreorder(le)
    ensures SameRankIn(SortBy(s, key, le), key, le, k) == SameRankIn(s, key, le, k)
  {
    if |s| > 0 {
      var init, x := s[..|s| - 1], s[|s| - 1];
      assert s == init + [x];
      assert SortBy(s, key, le) == Insert(SortBy(init, key, le), x, key, le);
      SortByKeepsRank(init, key, le, k);
      SortBySorted(init, key, le);
      InsertSameRank(SortBy(init, key, le), x, key, le, k);
      SameRankAppend(init, [x], key, le, k);
      SameRankCons(x, [], key, le, k);
      assert [x] + [] == [x];
    }
  }

  /** `SortByKeepsRank` for every rank at once. */
  lemma SortByKeepsRanks<T, K(!new)>(s: seq<T>, key: T -> K, le: (K, K) -> bool)
    requires TotalPreorder(le)
    ensures forall k :: SameRankIn(SortBy(s, key, le), key, le, k) == SameRankIn(s, key, le, k)
  {
    forall k ensures SameRankIn(SortBy(s, key, le), key, le, k) == SameRankIn(s, key, le, k) {
      SortByKeepsRank(s, key, le, k);
    }
  }

  /** `lambda a, b: a <= b` on strings. */
  function StringLe(): (le: (string, string) -> bool)
    ensures forall a, b :: le(a, b) == LessEq(a, b)
  {
    (a: string, b: string) => LessEq(a, b)
  }

  lemma StringLeTotal()
    ensures TotalPreorder(StringLe())
  {
    LessEqTotalOrder();
  }

  /** Strictly increasing under Python's `<` on strings. */
  predicate StrictlyIncreasing(r: seq<string>) {
    forall i, j :: 0 <= i < j < |r| ==> Less(r[i], r[j])
  }

  /** `sorted(xs)` for a set of strings: its members, each once, in increasing order. */
  method SortedSet(xs: set<string>) returns (r: seq<string>)
    ensures StrictlyIncreasing(r)
    ensures forall x :: x in xs <==> x in r
  {
    var rest := xs;
    r := [];
    StringLeTotal();
    while rest != {}
      invariant rest <= xs
      invariant SortedBy(r, (x: string) => x, StringLe())
      invariant forall i, j :: 0 <= i < j < |r| ==> r[i] != r[j]
      invariant forall x :: x in xs <==> (x in r || x in rest)
      invariant forall x :: x in r ==> x !in rest
      decreases |rest|
    {
      var x :| x in rest;
      var r' := Insert(r, x, (x: string) => x, StringLe());
      InsertSorted(r, x, (x: string) => x, StringLe());
      InsertKeepsDistinct(r, x, r');
      forall y ensures y in r' <==> y in r || y == x {
        assert y in r' <==> y in multiset(r');
        assert y in r <==> y in multiset(r);
      }
      r := r';
      rest := rest - {x};
    }
    forall i, j | 0 <= i < j < |r| ensures Less(r[i], r[j]) {
      LessTrichotomous(r[i], r[j]);
    }
  }

  lemma InsertKeepsDistinct(r: seq<string>, x: string, r': seq<string>)
    requires x !in r
    requires forall i, j :: 0 <= i < j < |r| ==> r[i] != r[j]
    requires multiset(r') == multiset(r) + multiset{x}
    ensures forall i, j :: 0 <= i < j < |r'| ==> r'[i] != r'[j]
  {
    assert forall y :: multiset(r)[y] <= 1 by {
      forall y ensures multiset(r)[y] <= 1 {
        DistinctCount(r, y);
      }
    }
    forall i, j | 0 <= i < j < |r'| ensures r'[i] != r'[j] {
      if r'[i] == r'[j] {
        TwiceCount(r', i, j);
        assert false;
      }
    }
  }

  lemma {:induction false} DistinctCount(r: seq<string>, y: string)
    requires forall i, j :: 0 <= i < j < |r| ==> r[i] != r[j]
    ensures multiset(r)[y] <= 1
  {
    if |r| > 0 {
      var init := r[..|r| - 1];
      assert r == init + [r[|r| - 1]];
      DistinctCount(init, y);
      if y == r[|r| - 1] {
        assert y !in init;
      }
    }
  }

  lemma {:induction false} TwiceCount(r: seq<string>, i: nat, j: nat)
    requires i < j < |r| && r[i] == r[j]
    ensures multiset(r)[r[i]] >= 2
  {
    assert r == r[..j] + [r[j]] + r[j + 1..];
    assert r[i] in r[..j];
    assert multiset(r[..j])[r[i]] >= 1;
  }
}
