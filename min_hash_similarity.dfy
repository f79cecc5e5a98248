/**
 * `min_hash_similarity.py`: the estimate of a pair's similarity from two
 * MinHash signatures, the all-pairs table built from it, and the count of
 * over- and under-estimates against the exact Jaccard table.
 */
module MinHashSimilarity {
  import opened Results
  import opened Ranking
  import opened UserPairs
  import opened MinHashSignatures

  // ---------------------------------------------------------------------------
  // estimated_similarity(user1, user2, min_hash_signatures)
  // ---------------------------------------------------------------------------

  /** The number of positions below n where the two signatures agree. */
  function Agreements(s1: seq<int>, s2: seq<int>, n: nat): (c: nat)
    requires n <= |s1| && n <= |s2|
    ensures c <= n
  {
    if n == 0 then 0
    else Agreements(s1, s2, n - 1) + (if s1[n - 1] == s2[n - 1] then 1 else 0)
  }

  /**
   * The agreeing positions divided by the number of distinct VALUES in the
   * two signatures (not by the signature length); two empty signatures
   * divide by zero.
   */
  function Estimate(s1: seq<int>, s2: seq<int>): (r: Result<real>)
    requires |s1| == |s2|
    ensures r.Failure? <==> |s1| == 0
    ensures r.Failure? ==> r.error == ZeroDivisionError
  {
    var union := Items(s1) + Items(s2);
    assert |s1| > 0 ==> s1[0] in union;
    if |union| == 0 then Failure(ZeroDivisionError)
    else Success(Agreements(s1, s2, |s1|) as real / |union| as real)
  }

  /** Every signature has the length of the first (one entry per hash function). */
  predicate Uniform(sigs: seq<seq<int>>)
  {
    forall u :: 0 <= u < |sigs| ==> |sigs[u]| == |sigs[0]|
  }

  /** Counts the agreeing positions of the signatures at `user - 1`, then divides. */
  method EstimatedSimilarity(user1: int, user2: int, sigs: seq<seq<int>>) returns (r: Result<real>)
    requires 1 <= user1 <= |sigs| && 1 <= user2 <= |sigs| && Uniform(sigs)
    ensures r == Estimate(sigs[user1 - 1], sigs[user2 - 1])
  {
    var common := 0;
    var s1, s2 := sigs[user1 - 1], sigs[user2 - 1];
    var union := Items(s1) + Items(s2);
    var i := 0;
    while i < |sigs[0]|
      invariant 0 <= i <= |sigs[0]|
      invariant common == Agreements(s1, s2, i)
    {
      if s1[i] == s2[i] {
        common := common + 1;
      }
      i := i + 1;
    }
    if |union| == 0 {
      return Failure(ZeroDivisionError);
    }
    r := Success(common as real / |union| as real);
  }

  lemma {:induction false} AgreementsSymmetric(s1: seq<int>, s2: seq<int>, n: nat)
    requires n <= |s1| && n <= |s2|
    ensures Agreements(s1, s2, n) == Agreements(s2, s1, n)
  {
    if n > 0 {
      AgreementsSymmetric(s1, s2, n - 1);
    }
  }

  /** The estimate is symmetric in the two users. */
  lemma EstimateSymmetric(s1: seq<int>, s2: seq<int>)
    requires |s1| == |s2|
    ensures Estimate(s1, s2) == Estimate(s2, s1)
  {
    AgreementsSymmetric(s1, s2, |s1|);
    assert Items(s1) + Items(s2) == Items(s2) + Items(s1);
  }

  lemma QuotientAtMost(c: real, u: real)
    requires c >= 0.0 && u >= 1.0
    ensures 0.0 <= c / u <= c
  {
    var q := c / u;
    assert q * u == c;
    assert q * (u - 1.0) >= 0.0;
  }

  /** The agreement count lies between 0 and the signature length, so the estimate is at most that length. */
  lemma EstimateBounds(s1: seq<int>, s2: seq<int>)
    requires |s1| == |s2| && |s1| > 0
    ensures 0.0 <= Estimate(s1, s2).value <= |s1| as real
  {
    var union := Items(s1) + Items(s2);
    assert s1[0] in union;
    var c, u := Agreements(s1, s2, |s1|) as real, |union| as real;
    QuotientAtMost(c, u);
  }

  lemma {:induction false} AgreementsOfItself(s: seq<int>, n: nat)
    requires n <= |s|
    ensures Agreements(s, s, n) == n
  {
    if n > 0 {
      AgreementsOfItself(s, n - 1);
    }
  }

  predicate DistinctValues(s: seq<int>)
  {
    forall i, j :: 0 <= i < j < |s| ==> s[i] != s[j]
  }

  lemma ItemsSnoc(init: seq<int>, last: int)
    ensures Items(init + [last]) == Items(init) + {last}
  {
  }

  lemma DistinctSnoc(init: seq<int>, last: int)
    ensures DistinctValues(init + [last]) <==> DistinctValues(init) && last !in Items(init)
  {
    var s := init + [last];
    if DistinctValues(s) {
      forall i, j | 0 <= i < j < |init| ensures init[i] != init[j] {
        assert s[i] == init[i] && s[j] == init[j];
      }
      forall k | 0 <= k < |init| ensures init[k] != last {
        assert s[k] == init[k] && s[|init|] == last;
      }
    }
    if DistinctValues(init) && last !in Items(init) {
      forall i, j | 0 <= i < j < |s| ensures s[i] != s[j] {
        if j == |init| {
          assert init[i] in Items(init);
        } else {
          assert s[i] == init[i] && s[j] == init[j];
        }
      }
    }
  }

  /** A signature has at most as many distinct values as entries, and as many exactly when its entries differ. */
  lemma {:induction false} ItemsCardinality(s: seq<int>)
    ensures |Items(s)| <= |s|
    ensures |Items(s)| == |s| <==> DistinctValues(s)
    decreases |s|
  {
    if |s| > 0 {
      var init, last := s[..|s| - 1], s[|s| - 1];
      ItemsCardinality(init);
      assert s == init + [last];
      ItemsSnoc(init, last);
      DistinctSnoc(init, last);
      if last in Items(init) {
        assert Items(s) == Items(init);
      }
    }
  }

  /**
   * A user compared with itself gets the signature length over its number of
   * distinct values: at least 1, and exactly 1 only when the signature's
   * entries all differ.
   */
  lemma EstimateOfItself(s: seq<int>)
    requires |s| > 0
    ensures 0 < |Items(s)| <= |s|
    ensures Estimate(s, s) == Success(|s| as real / |Items(s)| as real)
    ensures Estimate(s, s).value >= 1.0
    ensures Estimate(s, s).value == 1.0 <==> DistinctValues(s)
  {
    AgreementsOfItself(s, |s|);
    ItemsCardinality(s);
    assert Items(s) + Items(s) == Items(s);
    assert s[0] in Items(s);
    var k, u := |s| as real, |Items(s)| as real;
    assert 1.0 <= u <= k;
    assert k / u >= 1.0;
    assert k / u == 1.0 <==> k == u;
  }

  /** Two users with the signature [5, 5, 5] get the estimate 3, not 1. */
  lemma EstimateCanExceedOne()
    ensures Estimate([5, 5, 5], [5, 5, 5]) == Success(3.0)
  {
    EstimateOfItself([5, 5, 5]);
    assert Items([5, 5, 5]) == {5};
  }

  // ---------------------------------------------------------------------------
  // user_similarity_using_min_hash_signatures(user_movies, k, R, threshold)
  // ---------------------------------------------------------------------------

  /** Signatures are looked up at `id - 1`, so the ids must be 1..n in mapping order. */
  predicate ConsecutiveIds(users: seq<UserMovies>)
  {
    forall k :: 0 <= k < |users| ==> users[k].id == k + 1
  }

  /** The score of the pair of users at positions i and j. */
  function MinHashScore(sigs: seq<seq<int>>): (nat, nat) -> Result<real>
  {
    (i: nat, j: nat) =>
      if i < |sigs| && j < |sigs| && |sigs[i]| == |sigs[j]| then Estimate(sigs[i], sigs[j])
      else Failure(IndexError)
  }

  /** The unsorted dict the pair loop fills. */
  ghost function MinHashTable(users: seq<UserMovies>, as_: seq<int>, bs: seq<int>, R: int): Result<seq<Entry>>
    requires R > 0 && |as_| == |bs|
  {
    PairTable(Ids(users), MinHashScore(AllSignatures(users, as_, bs, R)), Combinations(|users|))
  }

  /** The table fails exactly when there is a pair to score and no hash function. */
  lemma MinHashTableFails(users: seq<UserMovies>, as_: seq<int>, bs: seq<int>, R: int)
    requires R > 0 && |as_| == |bs|
    ensures MinHashTable(users, as_, bs, R).Failure? <==> |users| >= 2 && |as_| == 0
  {
    var sigs := AllSignatures(users, as_, bs, R);
    var ps := Combinations(|users|);
    PairTableFails(Ids(users), MinHashScore(sigs), ps);
    CombinationsMembers(|users|);
    if |users| >= 2 && |as_| == 0 {
      assert (0, 1) in ps;
      var k :| 0 <= k < |ps| && ps[k] == (0, 1);
      assert !PairOk(Ids(users), MinHashScore(sigs), ps[k]);
    }
    if MinHashTable(users, as_, bs, R).Failure? {
      var k :| 0 <= k < |ps| && !PairOk(Ids(users), MinHashScore(sigs), ps[k]);
      assert ps[k] in ps;
    }
  }

  /** One step of the pair loop: the k-th pair's estimate extends the table over the pairs before it. */
  lemma EstimatePairStep(users: seq<UserMovies>, sigs: seq<seq<int>>, k: nat, table: seq<Entry>)
    requires ConsecutiveIds(users) && |sigs| == |users| && Uniform(sigs)
    requires k < |Combinations(|users|)|
    requires PairTable(Ids(users), MinHashScore(sigs), Combinations(|users|)[..k]) == Success(table)
    ensures var (u1, u2) := Combinations(|users|)[k];
      && u1 < u2 < |users| && users[u1].id == u1 + 1 && users[u2].id == u2 + 1
      && var similarity := Estimate(sigs[u1], sigs[u2]);
      && (similarity.Failure? ==> PairTable(Ids(users), MinHashScore(sigs), Combinations(|users|)).Failure?)
      && (similarity.Success? ==>
            PairTable(Ids(users), MinHashScore(sigs), Combinations(|users|)[..k + 1])
              == Success(table + [(Key(users[u1].id, users[u2].id), similarity.value)]))
  {
    var ids, score, pairs := Ids(users), MinHashScore(sigs), Combinations(|users|);
    var (u1, u2) := pairs[k];
    CombinationsAt(|users|, k);
    var similarity := Estimate(sigs[u1], sigs[u2]);
    assert score(u1, u2) == similarity;
    if similarity.Failure? {
      PairTableFailure(ids, score, pairs, k);
    } else {
      var entry := (Key(users[u1].id, users[u2].id), similarity.value);
      assert PairResult(ids, score, (u1, u2)) == Success(entry);
      PairTableExtend(ids, score, pairs[..k], (u1, u2), table, entry);
      assert pairs[..k + 1] == pairs[..k] + [(u1, u2)];
    }
  }

  /**
   * The pair loop of `user_similarity_using_min_hash_signatures`: fills the
   * dict pair by pair in `combinations` order with the estimate.
   */
  method EstimateAllPairs(users: seq<UserMovies>, sigs: seq<seq<int>>) returns (res: Result<seq<Entry>>)
    requires ConsecutiveIds(users) && |sigs| == |users| && Uniform(sigs)
    ensures var table := PairTable(Ids(users), MinHashScore(sigs), Combinations(|users|));
      && (res.Failure? <==> table.Failure?)
      && (res.Success? ==> res.value == table.value)
  {
    var pairs := Combinations(|users|);
    var table: seq<Entry> := [];
    var k := 0;
    while k < |pairs|
      invariant 0 <= k <= |pairs|
      invariant PairTable(Ids(users), MinHashScore(sigs), pairs[..k]) == Success(table)
    {
      EstimatePairStep(users, sigs, k, table);
      var (u1, u2) := pairs[k];
      var similarity := EstimatedSimilarity(users[u1].id, users[u2].id, sigs);
      if similarity.Failure? {
        return Failure(similarity.error);
      }
      table := table + [(Key(users[u1].id, users[u2].id), similarity.value)];
      k := k + 1;
    }
    assert pairs[..k] == pairs;
    res := Success(table);
  }

  /**
   * Computes every user's signature, fills the dict pair by pair in
   * `combinations` order with the estimate, then sorts it by descending
   * estimate and keeps the entries at or above the threshold.
   */
  method UserSimilarityUsingMinHash(users: seq<UserMovies>, as_: seq<int>, bs: seq<int>, R: int, threshold: real)
    returns (res: Result<(seq<Entry>, seq<Entry>)>)
    requires R > 0 && |as_| == |bs| && Sampled(as_, R) && Sampled(bs, R)
    requires ConsecutiveIds(users)
    ensures res.Failure? <==> |users| >= 2 && |as_| == 0
    ensures res.Success? ==>
      MinHashTable(users, as_, bs, R).Success?
      && res.value == SortThenFilter(MinHashTable(users, as_, bs, R).value, Score, threshold)
  {
    var sigs := ComputeUserSignatures(users, as_, bs, R);
    var table := EstimateAllPairs(users, sigs);
    MinHashTableFails(users, as_, bs, R);
    if table.Failure? {
      return Failure(table.error);
    }
    var sorted := SortDesc(table.value, Score);
    res := Success((sorted, FilterAtLeast(sorted, Score, threshold)));
  }

  /** With at least one hash function the dict holds n·(n−1)/2 entries, with distinct keys. */
  lemma MinHashTableSize(users: seq<UserMovies>, as_: seq<int>, bs: seq<int>, R: int)
    requires R > 0 && |as_| == |bs| && |as_| > 0 && DistinctIds(users)
    ensures MinHashTable(users, as_, bs, R).Success?
    ensures var t := MinHashTable(users, as_, bs, R).value;
      && 2 * |t| == |users| * (|users| - 1)
      && DistinctKeys(t)
  {
    var ids, score := Ids(users), MinHashScore(AllSignatures(users, as_, bs, R));
    MinHashTableFails(users, as_, bs, R);
    PairTableEntries(ids, score, Combinations(|users|));
    CombinationsMembers(|users|);
    PairTableKeysDistinct(ids, score);
  }

  /** Every pair of positions i < j has the entry "(i+1)_(j+1)" with the estimate from the two signatures. */
  lemma MinHashTableHasPair(users: seq<UserMovies>, as_: seq<int>, bs: seq<int>, R: int, i: nat, j: nat)
    requires R > 0 && |as_| == |bs| && |as_| > 0 && ConsecutiveIds(users) && i < j < |users|
    ensures MinHashTable(users, as_, bs, R).Success?
    ensures var sigs := AllSignatures(users, as_, bs, R);
      (Key(i + 1, j + 1), Estimate(sigs[i], sigs[j]).value) in MinHashTable(users, as_, bs, R).value
  {
    var sigs := AllSignatures(users, as_, bs, R);
    var ids, score := Ids(users), MinHashScore(sigs);
    MinHashTableFails(users, as_, bs, R);
    AllPairsTableHasPair(ids, score, i, j);
    assert ids[i] == i + 1 && ids[j] == j + 1;
    assert score(i, j) == Estimate(sigs[i], sigs[j]);
  }

  /** Entry k of a table of signature estimates is the estimate of the k-th pair. */
  lemma EstimateTableEntry(users: seq<UserMovies>, sigs: seq<seq<int>>, k: nat)
    requires ConsecutiveIds(users) && |sigs| == |users| && Uniform(sigs)
    requires PairTable(Ids(users), MinHashScore(sigs), Combinations(|users|)).Success?
    requires k < |Combinations(|users|)|
    ensures var (i, j) := Combinations(|users|)[k];
      var t := PairTable(Ids(users), MinHashScore(sigs), Combinations(|users|)).value;
      && i < j < |users| && k < |t|
      && t[k] == (Key(i + 1, j + 1), Estimate(sigs[i], sigs[j]).value)
  {
    var ids, score, ps := Ids(users), MinHashScore(sigs), Combinations(|users|);
    PairTableEntry(ids, score, ps, k);
    CombinationsAt(|users|, k);
  }

  /**
   * Entry k of the dict is the entry of the k-th pair (i, j) of `combinations`:
   * the key "(i+1)_(j+1)" with the estimate from the two signatures.
   */
  lemma MinHashTableEntry(users: seq<UserMovies>, as_: seq<int>, bs: seq<int>, R: int, k: nat)
    requires R > 0 && |as_| == |bs| && ConsecutiveIds(users)
    requires MinHashTable(users, as_, bs, R).Success? && k < |Combinations(|users|)|
    ensures var (i, j) := Combinations(|users|)[k];
      var sigs := AllSignatures(users, as_, bs, R);
      var t := MinHashTable(users, as_, bs, R).value;
      && i < j < |users| && |as_| > 0 && k < |t|
      && t[k] == (Key(i + 1, j + 1), Estimate(sigs[i], sigs[j]).value)
  {
    EstimateTableEntry(users, AllSignatures(users, as_, bs, R), k);
    MinHashTableFails(users, as_, bs, R);
  }

  // ---------------------------------------------------------------------------
  // compute_the_number_of_false_positives_and_false_negatives(jaccard, minhash)
  // ---------------------------------------------------------------------------

  /**
   * (FP, FN) over the first n keys of the exact dict: FP counts the keys whose
   * exact value is below the estimate, FN those above it; a key missing from
   * the estimated dict raises.
   */
  function Disagreements(jaccard: seq<Entry>, minhash: seq<Entry>, n: nat): Result<(nat, nat)>
    requires n <= |jaccard|
  {
    if n == 0 then Success((0, 0))
    else
      match Disagreements(jaccard, minhash, n - 1)
      case Failure(e) => Failure(e)
      case Success((fp, fn)) =>
        match Lookup(minhash, jaccard[n - 1].0)
        case None => Failure(KeyError)
        case Some(m) =>
          var j := jaccard[n - 1].1;
          Success((fp + (if j < m then 1 else 0), fn + (if j > m then 1 else 0)))
  }

  /** Compares each key's exact and estimated values, counting the two kinds of disagreement. */
  method CountFalsePositivesAndNegatives(jaccard: seq<Entry>, minhash: seq<Entry>) returns (r: Result<(nat, nat)>)
    ensures r == Disagreements(jaccard, minhash, |jaccard|)
  {
    var fp, fn := 0, 0;
    var k := 0;
    while k < |jaccard|
      invariant 0 <= k <= |jaccard|
      invariant Disagreements(jaccard, minhash, k) == Success((fp, fn))
    {
      var (key, exact) := jaccard[k];
      var estimate := Lookup(minhash, key);
      if estimate.None? {
        DisagreementsFail(jaccard, minhash, |jaccard|);
        return Failure(KeyError);
      }
      if exact < estimate.value {
        fp := fp + 1;
      }
      if exact > estimate.value {
        fn := fn + 1;
      }
      k := k + 1;
    }
    r := Success((fp, fn));
  }

  /** A key counts as at most one of FP and FN, so FP + FN is at most the number of keys. */
  lemma {:induction false} DisagreementsBound(jaccard: seq<Entry>, minhash: seq<Entry>, n: nat)
    requires n <= |jaccard| && Disagreements(jaccard, minhash, n).Success?
    ensures Disagreements(jaccard, minhash, n).value.0 + Disagreements(jaccard, minhash, n).value.1 <= n
  {
    if n > 0 {
      DisagreementsBound(jaccard, minhash, n - 1);
    }
  }

  /** The count raises exactly when some key of the exact dict is missing from the estimated one. */
  lemma {:induction false} DisagreementsFail(jaccard: seq<Entry>, minhash: seq<Entry>, n: nat)
    requires n <= |jaccard|
    ensures Disagreements(jaccard, minhash, n).Failure? <==>
      exists k :: 0 <= k < n && Lookup(minhash, jaccard[k].0).None?
    ensures Disagreements(jaccard, minhash, n).Failure? ==> Disagreements(jaccard, minhash, n).error == KeyError
  {
    if n > 0 {
      DisagreementsFail(jaccard, minhash, n - 1);
    }
  }

  /** A dict compared with itself has no false positive and no false negative. */
  lemma {:induction false} NoDisagreementWithItself(d: seq<Entry>, n: nat)
    requires n <= |d| && DistinctKeys(d)
    ensures Disagreements(d, d, n) == Success((0, 0))
  {
    if n > 0 {
      NoDisagreementWithItself(d, n - 1);
      LookupFindsEntry(d, n - 1);
    }
  }
}
