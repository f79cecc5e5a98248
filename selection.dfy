/**
 * The top-N loop shared by the item-based and the matrix-factorisation
 * recommenders. It walks the candidates in ranked order and sets aside
 * those the user has already rated. It keeps the others and breaks as soon
 * as `num` of them have been kept.
 */
module Selection {

  /**
   * The loop breaks right after the kept list reaches `num`. With `num < 1`
   * the length check `len(kept) == num` never succeeds, so the loop runs to
   * the end.
   */
  predicate Stopped(kept: int, num: int)
  {
    num >= 1 && kept == num
  }

  /**
   * The state of the loop after the candidates `entries`: the kept entries
   * and the already-rated entries set aside, both in scan order.
   */
  function Select<K(==), V>(entries: seq<(K, V)>, rated: set<K>, num: int): (seq<(K, V)>, seq<(K, V)>)
    decreases |entries|
  {
    if |entries| == 0 then ([], [])
    else
      var (picked, skipped) := Select(entries[..|entries| - 1], rated, num);
      var e := entries[|entries| - 1];
      if Stopped(|picked|, num) then (picked, skipped)
      else if e.0 in rated then (picked, skipped + [e])
      else (picked + [e], skipped)
  }

  /** One more candidate while the loop is still running. */
  lemma SelectStep<K, V>(entries: seq<(K, V)>, i: nat, rated: set<K>, num: int, picked: seq<(K, V)>, skipped: seq<(K, V)>)
    requires i < |entries|
    requires Select(entries[..i], rated, num).0 == picked && Select(entries[..i], rated, num).1 == skipped
    requires !Stopped(|picked|, num)
    ensures Select(entries[..i + 1], rated, num).0 == if entries[i].0 in rated then picked else picked + [entries[i]]
    ensures Select(entries[..i + 1], rated, num).1 == if entries[i].0 in rated then skipped + [entries[i]] else skipped
  {
    assert entries[..i + 1][..i] == entries[..i];
  }

  /** The candidates the user has not rated, in scan order. */
  function Unrated<K(==), V>(entries: seq<(K, V)>, rated: set<K>): (r: seq<(K, V)>)
    ensures |r| <= |entries|
    decreases |entries|
  {
    if |entries| == 0 then []
    else
      var init, e := entries[..|entries| - 1], entries[|entries| - 1];
      Unrated(init, rated) + (if e.0 in rated then [] else [e])
  }

  /** The unrated candidates are exactly the candidates whose key the user has not rated. */
  lemma {:induction false} UnratedMembers<K, V>(entries: seq<(K, V)>, rated: set<K>)
    ensures forall e :: e in Unrated(entries, rated) <==> e in entries && e.0 !in rated
    decreases |entries|
  {
    if |entries| > 0 {
      var init := entries[..|entries| - 1];
      UnratedMembers(init, rated);
      assert entries == init + [entries[|entries| - 1]];
    }
  }

  /** The first `num` items of `s`, or all of them when `num < 1`. */
  function Take<T>(s: seq<T>, num: int): (r: seq<T>)
    ensures |r| == if 1 <= num < |s| then num else |s|
    ensures r == s[..|r|]
  {
    if 1 <= num < |s| then s[..num] else s
  }

  /**
   * The kept entries are exactly the first `num` unrated candidates (all of
   * them when there are fewer, or when `num < 1`).
   */
  lemma {:induction false} SelectPicksFirstUnrated<K, V>(entries: seq<(K, V)>, rated: set<K>, num: int)
    ensures Select(entries, rated, num).0 == Take(Unrated(entries, rated), num)
    decreases |entries|
  {
    if |entries| > 0 {
      var init, e := entries[..|entries| - 1], entries[|entries| - 1];
      SelectPicksFirstUnrated(init, rated, num);
      var u := Unrated(init, rated);
      var picked := Take(u, num);
      if Stopped(|picked|, num) {
        assert (u + [e])[..num] == u[..num];
      } else if e.0 !in rated {
        assert num < 1 || |u| < num;
      }
    }
  }

  /** Everything the loop sets aside was rated by the user and comes from the candidates. */
  lemma {:induction false} SelectSkipsRated<K, V>(entries: seq<(K, V)>, rated: set<K>, num: int)
    ensures forall e :: e in Select(entries, rated, num).1 ==> e in entries && e.0 in rated
    decreases |entries|
  {
    if |entries| > 0 {
      var init := entries[..|entries| - 1];
      SelectSkipsRated(init, rated, num);
      assert entries == init + [entries[|entries| - 1]];
    }
  }

  /**
   * What the loop keeps: only unrated candidates, at most `num` of them when
   * `num >= 1`, and no unrated candidate it passes over comes before a kept
   * one. No key is both kept and set aside.
   */
  lemma SelectMeaning<K, V>(entries: seq<(K, V)>, rated: set<K>, num: int)
    ensures var (picked, skipped) := Select(entries, rated, num);
      && (forall e :: e in picked ==> e in entries && e.0 !in rated)
      && (num >= 1 ==> |picked| <= num)
      && |picked| == (if 1 <= num < |Unrated(entries, rated)| then num else |Unrated(entries, rated)|)
      && picked == Unrated(entries, rated)[..|picked|]
      && (forall e, f :: e in picked && f in skipped ==> e.0 != f.0)
  {
    SelectPicksFirstUnrated(entries, rated, num);
    SelectSkipsRated(entries, rated, num);
    UnratedMembers(entries, rated);
  }

  /** Once the loop has broken out, later candidates change nothing. */
  lemma {:induction false} SelectStaysStopped<K, V>(entries: seq<(K, V)>, i: nat, rated: set<K>, num: int)
    requires i <= |entries|
    requires Stopped(|Select(entries[..i], rated, num).0|, num)
    ensures Select(entries, rated, num) == Select(entries[..i], rated, num)
    decreases |entries| - i
  {
    if i < |entries| {
      var next := entries[..i + 1];
      assert next[..i] == entries[..i];
      SelectStaysStopped(entries, i + 1, rated, num);
    } else {
      assert entries[..i] == entries;
    }
  }
}
