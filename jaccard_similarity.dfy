/**
 * The exact Jaccard oracle and the brute-force all-pairs table of
 * `jaccard_similarity.py` (the same `jaccard_similarity` is repeated in
 * `lsh_similarity.py` and `item_based_recommendations.py`; this module is
 * the one definition of it).
 */
module JaccardSimilarity {
  import opened Results
  import opened Ranking
  import opened UserPairs

  // ---------------------------------------------------------------------------
  // jaccard_similarity(set1, set2)
  // ---------------------------------------------------------------------------

  /** `len(set1 & set2) / len(set1 | set2)`; two empty sets divide by zero. */
  function Jaccard<T>(a: set<T>, b: set<T>): (r: Result<real>)
    ensures r.Failure? <==> a == {} && b == {}
    ensures r.Failure? ==> r.error == ZeroDivisionError
    ensures r.Success? ==> 0.0 <= r.value <= 1.0
  {
    var union := a + b;
    var intersection := a * b;
    SubsetCardinality(intersection, union);
    if |union| == 0 then Failure(ZeroDivisionError)
    else Success(|intersection| as real / |union| as real)
  }

  lemma {:induction false} SubsetCardinality<T>(s: set<T>, t: set<T>)
    requires s <= t
    ensures |s| <= |t|
    ensures |s| == |t| ==> s == t
  {
    assert t == s + (t - s);
    assert s * (t - s) == {};
    assert |t| == |s| + |t - s|;
    if |s| == |t| {
      assert t - s == {};
    }
  }

  /** Symmetric in its two arguments. */
  lemma JaccardSymmetric<T>(a: set<T>, b: set<T>)
    ensures Jaccard(a, b) == Jaccard(b, a)
  {
    assert a + b == b + a && a * b == b * a;
  }

  /** A non-empty set is fully similar to itself. */
  lemma JaccardOfItself<T>(a: set<T>)
    requires a != {}
    ensures Jaccard(a, a) == Success(1.0)
  {
    assert a + a == a && a * a == a;
    var c := |a| as real;
    assert c > 0.0;
    assert c / c == 1.0;
  }

  /** The similarity is 1 exactly when the two sets are equal. */
  lemma JaccardOneIffEqual<T>(a: set<T>, b: set<T>)
    requires a != {} || b != {}
    ensures Jaccard(a, b).value == 1.0 <==> a == b
  {
    if Jaccard(a, b).value == 1.0 {
      var u, i := a + b, a * b;
      assert |u| > 0;
      assert |i| as real == |u| as real;
      SubsetCardinality(i, u);
      assert i == u;
      assert a <= u && u == i && i <= b;
      assert b <= u && i <= a;
    } else if a == b {
      JaccardOfItself(a);
    }
  }

  /** The similarity is 0 exactly when the two sets share nothing. */
  lemma JaccardZeroIffDisjoint<T>(a: set<T>, b: set<T>)
    requires a != {} || b != {}
    ensures Jaccard(a, b).value == 0.0 <==> a * b == {}
  {
    var u := a + b;
    assert |u| > 0;
  }

  // ---------------------------------------------------------------------------
  // user_similarity_using_jaccard_coefficient(user_movies, similarity_threshold)
  // ---------------------------------------------------------------------------

  /** The score of the pair of users at positions i and j. */
  function UserJaccard(users: seq<UserMovies>): (nat, nat) -> Result<real>
  {
    (i: nat, j: nat) =>
      if i < |users| && j < |users| then Jaccard(Items(users[i].movies), Items(users[j].movies))
      else Failure(KeyError)
  }

  /** The unsorted dict the pair loop fills. */
  function JaccardTable(users: seq<UserMovies>): Result<seq<Entry>>
  {
    PairTable(Ids(users), UserJaccard(users), Combinations(|users|))
  }

  lemma ItemsEmptyIff(s: seq<int>)
    ensures Items(s) == {} <==> s == []
  {
    if s != [] {
      assert s[0] in Items(s);
    }
  }

  predicate TwoEmptyUsers(users: seq<UserMovies>)
  {
    exists i, j :: 0 <= i < j < |users| && users[i].movies == [] && users[j].movies == []
  }

  /** The pair loop raises exactly when two users have seen no movie. */
  lemma JaccardTableFailsIffTwoEmpty(users: seq<UserMovies>)
    ensures JaccardTable(users).Failure? <==> TwoEmptyUsers(users)
  {
    var n := |users|;
    var score := UserJaccard(users);
    PairTableFails(Ids(users), score, Combinations(n));
    CombinationsMembers(n);
    if TwoEmptyUsers(users) {
      var i, j :| 0 <= i < j < n && users[i].movies == [] && users[j].movies == [];
      ItemsEmptyIff(users[i].movies);
      ItemsEmptyIff(users[j].movies);
      assert (i, j) in Combinations(n);
      var k :| 0 <= k < |Combinations(n)| && Combinations(n)[k] == (i, j);
      assert !PairOk(Ids(users), score, Combinations(n)[k]);
    }
    if JaccardTable(users).Failure? {
      var k :| 0 <= k < |Combinations(n)| && !PairOk(Ids(users), score, Combinations(n)[k]);
      var p := Combinations(n)[k];
      assert p in Combinations(n);
      assert p.0 < p.1 < n;
      assert Items(users[p.0].movies) == {} && Items(users[p.1].movies) == {};
      ItemsEmptyIff(users[p.0].movies);
      ItemsEmptyIff(users[p.1].movies);
    }
  }

  /**
   * Fills the dict pair by pair in `combinations` order, then sorts it by
   * descending similarity and keeps the entries at or above the threshold.
   */
  method UserSimilarityUsingJaccard(users: seq<UserMovies>, threshold: real)
    returns (res: Result<(seq<Entry>, seq<Entry>)>)
    ensures res.Failure? <==> TwoEmptyUsers(users)
    ensures res.Success? ==> JaccardTable(users).Success? && res.value == SortThenFilter(JaccardTable(users).value, Score, threshold)
  {
    var n := |users|;
    ghost var ids, score := Ids(users), UserJaccard(users);
    var pairs := Combinations(n);
    CombinationsMembers(n);
    var table: seq<Entry> := [];
    var k := 0;
    while k < |pairs|
      invariant 0 <= k <= |pairs|
      invariant PairTable(ids, score, pairs[..k]) == Success(table)
    {
      var (u1, u2) := pairs[k];
      assert (u1, u2) in pairs;
      var s1, s2 := Items(users[u1].movies), Items(users[u2].movies);
      var jaccard := Jaccard(s1, s2);
      if jaccard.Failure? {
        ItemsEmptyIff(users[u1].movies);
        ItemsEmptyIff(users[u2].movies);
        res := Failure(jaccard.error);
        return;
      }
      var entry := (Key(users[u1].id, users[u2].id), jaccard.value);
      assert score(u1, u2) == jaccard;
      assert PairResult(ids, score, (u1, u2)) == Success(entry);
      PairTableExtend(ids, score, pairs[..k], (u1, u2), table, entry);
      assert pairs[..k + 1] == pairs[..k] + [(u1, u2)];
      table := table + [entry];
      k := k + 1;
    }
    assert pairs[..k] == pairs;
    JaccardTableFailsIffTwoEmpty(users);
    var sorted := SortDesc(table, Score);
    res := Success((sorted, FilterAtLeast(sorted, Score, threshold)));
  }

  /** The entry the loop stores for the users at positions i and j. */
  function PairEntry(users: seq<UserMovies>, i: nat, j: nat): Entry
    requires i < |users| && j < |users|
    requires users[i].movies != [] || users[j].movies != []
  {
    ItemsEmptyIff(users[i].movies);
    ItemsEmptyIff(users[j].movies);
    (Key(users[i].id, users[j].id), Jaccard(Items(users[i].movies), Items(users[j].movies)).value)
  }

  /** The unsorted dict holds n·(n−1)/2 entries, with distinct keys. */
  lemma JaccardTableSize(users: seq<UserMovies>)
    requires DistinctIds(users) && JaccardTable(users).Success?
    ensures var t := JaccardTable(users).value;
      && 2 * |t| == |users| * (|users| - 1)
      && (forall k, l :: 0 <= k < l < |t| ==> t[k].0 != t[l].0)
  {
    PairTableEntries(Ids(users), UserJaccard(users), Combinations(|users|));
    CombinationsMembers(|users|);
    PairTableKeysDistinct(Ids(users), UserJaccard(users));
  }

  /** Every pair of positions i < j has its entry in the dict. */
  lemma JaccardTableHasPair(users: seq<UserMovies>, i: nat, j: nat)
    requires JaccardTable(users).Success? && i < j < |users|
    ensures users[i].movies != [] || users[j].movies != []
    ensures PairEntry(users, i, j) in JaccardTable(users).value
  {
    AllPairsTableHasPair(Ids(users), UserJaccard(users), i, j);
    ItemsEmptyIff(users[i].movies);
    ItemsEmptyIff(users[j].movies);
  }

  /** Every entry of the dict is the entry of some pair i < j. */
  lemma JaccardTableOnlyPairs(users: seq<UserMovies>, e: Entry)
    requires JaccardTable(users).Success? && e in JaccardTable(users).value
    ensures exists i: nat, j: nat ::
      i < j < |users| && (users[i].movies != [] || users[j].movies != []) && e == PairEntry(users, i, j)
  {
    var i, j := AllPairsTableOnlyPairs(Ids(users), UserJaccard(users), e);
    ItemsEmptyIff(users[i].movies);
    ItemsEmptyIff(users[j].movies);
    assert e == PairEntry(users, i, j);
  }

  // ---------------------------------------------------------------------------
  // get_the_movies_of_the_most_similar_pair_of_users (without the printing)
  // ---------------------------------------------------------------------------

  /** `user_movies[id]` */
  function MoviesOf(users: seq<UserMovies>, id: int): (r: Result<seq<int>>)
    ensures r.Failure? <==> forall k :: 0 <= k < |users| ==> users[k].id != id
    ensures r.Failure? ==> r.error == KeyError
    decreases |users|
  {
    if |users| == 0 then Failure(KeyError)
    else if users[0].id == id then Success(users[0].movies)
    else MoviesOf(users[1..], id)
  }

  lemma {:induction false} MoviesOfAt(users: seq<UserMovies>, k: nat)
    requires DistinctIds(users) && k < |users|
    ensures MoviesOf(users, users[k].id) == Success(users[k].movies)
    decreases k
  {
    if k > 0 {
      MoviesOfAt(users[1..], k - 1);
    }
  }

  /**
   * The first pair of the given dict, parsed from its key, with the union of
   * the two users' movie sets (printed as the movies "seen from" the pair).
   */
  function MostSimilarPairMovies(similarities: seq<Entry>, users: seq<UserMovies>): Result<(int, int, set<int>)>
  {
    if |similarities| == 0 then Failure(IndexError)
    else
      match ParseKey(similarities[0].0)
      case Failure(e) => Failure(e)
      case Success((u1, u2)) =>
        match (MoviesOf(users, u1), MoviesOf(users, u2))
        case (Success(m1), Success(m2)) => Success((u1, u2, Items(m1) + Items(m2)))
        case (Failure(e), _) => Failure(e)
        case (_, Failure(e)) => Failure(e)
  }

  /**
   * For a dict whose first key was built from the ids of users i and j, the
   * pair reported is (id_i, id_j) and its movie set is the UNION of theirs,
   * which includes movies only one of them has seen.
   */
  lemma MostSimilarPairIsFirstEntry(similarities: seq<Entry>, users: seq<UserMovies>, i: nat, j: nat)
    requires DistinctIds(users) && i < |users| && j < |users|
    requires |similarities| > 0 && similarities[0].0 == Key(users[i].id, users[j].id)
    ensures MostSimilarPairMovies(similarities, users)
      == Success((users[i].id, users[j].id, Items(users[i].movies) + Items(users[j].movies)))
  {
    KeyRoundTrip(users[i].id, users[j].id);
    MoviesOfAt(users, i);
    MoviesOfAt(users, j);
  }

  /** An empty dict has no first pair. */
  lemma MostSimilarPairOfEmptyDict(users: seq<UserMovies>)
    ensures MostSimilarPairMovies([], users) == Failure(IndexError)
  {
  }
}
