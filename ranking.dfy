/**
 * Ordering helpers shared by the similarity and recommendation code:
 * `sorted(items, key=..., reverse=True)`, the slice `items[:k]` and the
 * threshold filter `filter(lambda x: x[1] >= t, items)`.
 */
module Ranking {

  /** Non-increasing order of `score`. */
  predicate SortedDesc<T>(s: seq<T>, score: T -> real)
  {
    forall i, j :: 0 <= i < j < |s| ==> score(s[i]) >= score(s[j])
  }

  /** Every element of `s` scores at most `top`. */
  predicate BoundedBy<T>(s: seq<T>, score: T -> real, top: real)
  {
    forall i :: 0 <= i < |s| ==> score(s[i]) <= top
  }

  /** A bound on the elements carries over to any rearrangement of them plus one more within the bound. */
  lemma MultisetBound<T>(r: seq<T>, s: seq<T>, x: T, score: T -> real, top: real)
    requires multiset(r) == multiset(s) + multiset{x}
    requires BoundedBy(s, score, top) && score(x) <= top
    ensures BoundedBy(r, score, top)
  {
    forall i | 0 <= i < |r| ensures score(r[i]) <= top {
      assert r[i] in multiset(r);
      if r[i] != x {
        assert r[i] in multiset(s);
        var j :| 0 <= j < |s| && s[j] == r[i];
      }
    }
  }

  /** A head scoring at least as much as a sorted tail keeps it sorted. */
  lemma SortedCons<T>(x: T, s: seq<T>, score: T -> real)
    requires SortedDesc(s, score) && BoundedBy(s, score, score(x))
    ensures SortedDesc([x] + s, score)
  {
    var r := [x] + s;
    forall i, j | 0 <= i < j < |r| ensures score(r[i]) >= score(r[j]) {
      assert r[j] == s[j - 1];
      if i > 0 {
        assert r[i] == s[i - 1];
      }
    }
  }

  /** Inserts `x` after every element scoring at least as much (keeps ties in arrival order). */
  function Insert<T>(x: T, s: seq<T>, score: T -> real): (r: seq<T>)
    requires SortedDesc(s, score)
    ensures SortedDesc(r, score)
    ensures multiset(r) == multiset(s) + multiset{x}
    decreases |s|
  {
    if |s| == 0 then [x]
    else if score(s[0]) >= score(x) then
      var r' := Insert(x, s[1..], score);
      assert BoundedBy(s[1..], score, score(s[0]));
      MultisetBound(r', s[1..], x, score, score(s[0]));
      SortedCons(s[0], r', score);
      assert s == [s[0]] + s[1..];
      [s[0]] + r'
    else
      [x] + s
  }

  /** `sorted(s, key=score, reverse=True)`: a stable sort into non-increasing order. */
  function SortDesc<T>(s: seq<T>, score: T -> real): (r: seq<T>)
    ensures SortedDesc(r, score)
    ensures multiset(r) == multiset(s)
    decreases |s|
  {
    if |s| == 0 then []
    else
      assert s == s[..|s| - 1] + [s[|s| - 1]];
      Insert(s[|s| - 1], SortDesc(s[..|s| - 1], score), score)
  }

  /** No two elements share a `key`: the items of a Python dict, keyed by `key`. */
  predicate DistinctBy<T, K(==)>(s: seq<T>, key: T -> K)
  {
    forall i, j :: 0 <= i < j < |s| ==> key(s[i]) != key(s[j])
  }

  lemma {:induction false} InsertDistinct<T, K>(x: T, s: seq<T>, score: T -> real, key: T -> K)
    requires SortedDesc(s, score) && DistinctBy(s, key)
    requires forall i :: 0 <= i < |s| ==> key(s[i]) != key(x)
    ensures DistinctBy(Insert(x, s, score), key)
    decreases |s|
  {
    if |s| > 0 && score(s[0]) >= score(x) {
      var tail := s[1..];
      InsertDistinct(x, tail, score, key);
      var r' := Insert(x, tail, score);
      forall z | z in r' ensures key(z) != key(s[0]) {
        assert z in multiset(r');
        if z != x {
          assert z in multiset(tail);
          var m :| 0 <= m < |tail| && tail[m] == z;
          assert s[m + 1] == z;
        }
      }
      var r := [s[0]] + r';
      forall i, j | 0 <= i < j < |r| ensures key(r[i]) != key(r[j]) {
        assert r[j] == r'[j - 1];
        if i > 0 {
          assert r[i] == r'[i - 1];
        }
      }
    } else if |s| > 0 {
      var r := [x] + s;
      forall i, j | 0 <= i < j < |r| ensures key(r[i]) != key(r[j]) {
        assert r[j] == s[j - 1];
        if i > 0 {
          assert r[i] == s[i - 1];
        }
      }
    }
  }

  /** Sorting the items of a dict leaves their keys distinct. */
  lemma {:induction false} SortDescDistinct<T, K>(s: seq<T>, score: T -> real, key: T -> K)
    requires DistinctBy(s, key)
    ensures DistinctBy(SortDesc(s, score), key)
    decreases |s|
  {
    if |s| > 0 {
      var init, last := s[..|s| - 1], s[|s| - 1];
      assert DistinctBy(init, key);
      SortDescDistinct(init, score, key);
      var sorted := SortDesc(init, score);
      forall i | 0 <= i < |sorted| ensures key(sorted[i]) != key(last) {
        assert sorted[i] in multiset(init);
        var m :| 0 <= m < |init| && init[m] == sorted[i];
        assert s[m] == init[m];
      }
      InsertDistinct(last, sorted, score, key);
    }
  }

  /** Sorting keeps exactly the same elements. */
  lemma SortDescMembers<T>(s: seq<T>, score: T -> real)
    ensures forall x :: x in SortDesc(s, score) <==> x in s
  {
    var r := SortDesc(s, score);
    forall x ensures x in r <==> x in s {
      assert x in r <==> x in multiset(r);
      assert x in s <==> x in multiset(s);
    }
  }

  /** A sequence whose keys are distinct holds each of its elements once. */
  lemma {:induction false} DistinctOnce<T, K>(s: seq<T>, key: T -> K)
    requires DistinctBy(s, key)
    ensures forall x :: multiset(s)[x] == if x in s then 1 else 0
    decreases |s|
  {
    if |s| > 0 {
      var init, last := s[..|s| - 1], s[|s| - 1];
      assert s == init + [last];
      assert DistinctBy(init, key);
      DistinctOnce(init, key);
      forall m | 0 <= m < |init| ensures init[m] != last {
        assert key(s[m]) != key(s[|s| - 1]);
      }
      forall x ensures multiset(s)[x] == if x in s then 1 else 0 {
        assert multiset(s)[x] == multiset(init)[x] + multiset([last])[x];
        assert x in s <==> x in init || x == last;
      }
    }
  }

  /** Two sequences with distinct keys and the same elements hold them equally often. */
  lemma SameMembersSameMultiset<T, K>(s: seq<T>, t: seq<T>, key: T -> K)
    requires DistinctBy(s, key) && DistinctBy(t, key)
    requires forall x :: x in s <==> x in t
    ensures multiset(s) == multiset(t)
  {
    DistinctOnce(s, key);
    DistinctOnce(t, key);
    assert forall x :: multiset(s)[x] == multiset(t)[x];
  }

  /** Python's `s[:k]`, including a negative `k`, which drops `-k` items from the end. */
  function Slice<T>(s: seq<T>, k: int): (r: seq<T>)
    ensures |r| <= |s| && r == s[..|r|]
    ensures 0 <= k ==> |r| == if k < |s| then k else |s|
    ensures k < 0 ==> |r| == if |s| + k < 0 then 0 else |s| + k
  {
    if 0 <= k then (if k < |s| then s[..k] else s)
    else if |s| + k < 0 then [] else s[..|s| + k]
  }

  /** A prefix of a sorted sequence is sorted. */
  lemma SliceKeepsOrder<T>(s: seq<T>, k: int, score: T -> real)
    requires SortedDesc(s, score)
    ensures SortedDesc(Slice(s, k), score)
  {
  }

  /** `filter(lambda x: score(x) >= t, s)` */
  function FilterAtLeast<T>(s: seq<T>, score: T -> real, t: real): (r: seq<T>)
    ensures |r| <= |s|
    ensures forall i :: 0 <= i < |r| ==> r[i] in s && score(r[i]) >= t
    ensures forall i :: 0 <= i < |s| && score(s[i]) >= t ==> s[i] in r
    decreases |s|
  {
    if |s| == 0 then []
    else if score(s[0]) >= t then [s[0]] + FilterAtLeast(s[1..], score, t)
    else FilterAtLeast(s[1..], score, t)
  }

  /** Filtering keeps a bound on the scores. */
  lemma {:induction false} FilterBound<T>(s: seq<T>, score: T -> real, t: real, top: real)
    requires BoundedBy(s, score, top)
    ensures BoundedBy(FilterAtLeast(s, score, t), score, top)
    decreases |s|
  {
    if |s| > 0 {
      assert BoundedBy(s[1..], score, top);
      FilterBound(s[1..], score, t, top);
    }
  }

  /** Filtering keeps the relative order, so a sorted sequence stays sorted. */
  lemma {:induction false} FilterKeepsOrder<T>(s: seq<T>, score: T -> real, t: real)
    requires SortedDesc(s, score)
    ensures SortedDesc(FilterAtLeast(s, score, t), score)
    decreases |s|
  {
    if |s| > 0 {
      FilterKeepsOrder(s[1..], score, t);
      var r' := FilterAtLeast(s[1..], score, t);
      if score(s[0]) >= t {
        assert BoundedBy(s[1..], score, score(s[0]));
        FilterBound(s[1..], score, t, score(s[0]));
        SortedCons(s[0], r', score);
      }
    }
  }

  /** `sorted(s, key=score, reverse=True)` paired with the part of it scoring at least `t`. */
  function SortThenFilter<T>(s: seq<T>, score: T -> real, t: real): (seq<T>, seq<T>)
  {
    var sorted := SortDesc(s, score);
    (sorted, FilterAtLeast(sorted, score, t))
  }

  /**
   * The sorted part is a reordering of `s` into non-increasing order; the
   * filtered part is sorted too and holds exactly the items of `s` scoring
   * at least `t`.
   */
  lemma SortThenFilterMeaning<T>(s: seq<T>, score: T -> real, t: real)
    ensures var (sorted, above) := SortThenFilter(s, score, t);
      && |sorted| == |s| && multiset(sorted) == multiset(s) && SortedDesc(sorted, score)
      && SortedDesc(above, score)
      && (forall x :: x in above <==> x in s && score(x) >= t)
  {
    var (sorted, above) := SortThenFilter(s, score, t);
    assert |sorted| == |multiset(sorted)| == |multiset(s)| == |s|;
    FilterKeepsOrder(sorted, score, t);
    forall x ensures x in above <==> x in s && score(x) >= t {
      assert x in sorted <==> x in multiset(sorted);
      assert x in s <==> x in multiset(s);
      if x in sorted && score(x) >= t {
        var k :| 0 <= k < |sorted| && sorted[k] == x;
      }
    }
  }
}
