/**
 * The top-N step of `make_recommendations_using_matrix_factorization`. The
 * predicted rating of every joke (what `svd.predict` returns) is an input,
 * given as the items of the `pred_ratings` dict in `df_jokes` order.
 */
module MatrixFactorizationRecommendations {
  import opened Ranking
  import opened Selection

  /** A joke id with its predicted rating. */
  type Prediction = (int, real)

  function Joke(p: Prediction): int { p.0 }

  function Rating(p: Prediction): real { p.1 }

  /**
   * The rows of `predictions` whose joke is in `jokes`, in their original
   * order: `df_jokes[df_jokes.joke_id.isin(jokes)]` with its predicted rating.
   */
  function Restrict(predictions: seq<Prediction>, jokes: set<int>): (r: seq<Prediction>)
    ensures forall i :: 0 <= i < |r| ==> r[i] in predictions && r[i].0 in jokes
    ensures forall i :: 0 <= i < |predictions| && predictions[i].0 in jokes ==> predictions[i] in r
    decreases |predictions|
  {
    if |predictions| == 0 then []
    else if predictions[0].0 in jokes then [predictions[0]] + Restrict(predictions[1..], jokes)
    else Restrict(predictions[1..], jokes)
  }

  /** Restricting keeps the rows' joke ids distinct. */
  lemma {:induction false} RestrictDistinct(predictions: seq<Prediction>, jokes: set<int>)
    requires DistinctBy(predictions, Joke)
    ensures DistinctBy(Restrict(predictions, jokes), Joke)
    decreases |predictions|
  {
    if |predictions| > 0 {
      var tail := predictions[1..];
      assert DistinctBy(tail, Joke);
      RestrictDistinct(tail, jokes);
      if predictions[0].0 in jokes {
        var rest := Restrict(tail, jokes);
        var r := [predictions[0]] + rest;
        forall i, j | 0 <= i < j < |r| ensures Joke(r[i]) != Joke(r[j]) {
          assert r[j] == rest[j - 1];
          if i == 0 {
            var m :| 0 <= m < |tail| && tail[m] == rest[j - 1];
            assert predictions[m + 1] == tail[m];
          } else {
            assert r[i] == rest[i - 1];
          }
        }
      }
    }
  }

  /** The jokes of some predictions: the set the selection loop builds. */
  function Jokes(ps: seq<Prediction>): set<int>
  {
    set p | p in ps :: p.0
  }

  lemma JokesSnoc(ps: seq<Prediction>, p: Prediction)
    ensures Jokes(ps + [p]) == Jokes(ps) + {p.0}
  {
    assert forall q :: q in ps + [p] <==> q in ps || q == p;
  }

  /** The next candidate's joke is not among those kept so far, since joke ids are distinct. */
  lemma FreshJoke(sorted: seq<Prediction>, i: nat, alreadyRated: set<int>, num: int)
    requires i < |sorted| && DistinctBy(sorted, Joke)
    ensures sorted[i].0 !in Jokes(Select(sorted[..i], alreadyRated, num).0)
  {
    SelectMeaning(sorted[..i], alreadyRated, num);
    forall p | p in Select(sorted[..i], alreadyRated, num).0 ensures p.0 != sorted[i].0 {
      var m :| 0 <= m < i && sorted[..i][m] == p;
      assert sorted[m] == p;
    }
  }

  /** Keeping a row whose joke is not yet kept keeps the joke ids distinct. */
  lemma DistinctSnoc(ps: seq<Prediction>, p: Prediction)
    requires DistinctBy(ps, Joke) && p.0 !in Jokes(ps)
    ensures DistinctBy(ps + [p], Joke)
  {
    forall k | 0 <= k < |ps| ensures Joke(ps[k]) != Joke(p) {
      assert ps[k] in ps;
    }
  }

  /** Every row kept by the loop is one of the predictions. */
  lemma KeptFromPredictions(predictions: seq<Prediction>, sorted: seq<Prediction>, alreadyRated: set<int>, num: int)
    requires multiset(sorted) == multiset(predictions)
    ensures forall q :: q in Select(sorted, alreadyRated, num).0 ==> q in predictions
  {
    SelectMeaning(sorted, alreadyRated, num);
    forall q | q in Select(sorted, alreadyRated, num).0 ensures q in predictions {
      assert q in multiset(sorted);
    }
  }

  /**
   * Restricting the rows to the jokes of some of them and sorting gives
   * back exactly those rows, since joke ids are distinct.
   */
  lemma KeptRows(predictions: seq<Prediction>, picked: seq<Prediction>)
    requires DistinctBy(predictions, Joke)
    requires forall q :: q in picked ==> q in predictions
    ensures forall p :: p in SortDesc(Restrict(predictions, Jokes(picked)), Rating) <==> p in picked
  {
    var r := Restrict(predictions, Jokes(picked));
    SortDescMembers(r, Rating);
    forall p | p in r ensures p in picked {
      var q :| q in picked && q.0 == p.0;
      SameJoke(predictions, p, q);
    }
    forall p | p in picked ensures p in r {
      var m :| 0 <= m < |predictions| && predictions[m] == p;
    }
  }

  /** Two predictions for the same joke are the same row. */
  lemma SameJoke(predictions: seq<Prediction>, p: Prediction, q: Prediction)
    requires DistinctBy(predictions, Joke)
    requires p in predictions && q in predictions && p.0 == q.0
    ensures p == q
  {
    var a :| 0 <= a < |predictions| && predictions[a] == p;
    var b :| 0 <= b < |predictions| && predictions[b] == q;
    assert Joke(predictions[a]) == Joke(predictions[b]);
  }

  /**
   * Sorts the predictions by rating, collects into a set the jokes the user
   * has not rated until `num` have been collected, and returns their rows
   * sorted by predicted rating. The rows are exactly the ones the selection
   * loop keeps, each once, so `Selection.SelectMeaning` says which they are
   * and there are at most `num` of them.
   */
  method MakeRecommendations(predictions: seq<Prediction>, alreadyRated: set<int>, num: int)
    returns (rec: seq<Prediction>)
    requires DistinctBy(predictions, Joke)
    ensures SortedDesc(rec, Rating)
    ensures multiset(rec) == multiset(Select(SortDesc(predictions, Rating), alreadyRated, num).0)
    ensures forall p :: p in rec <==> p in Select(SortDesc(predictions, Rating), alreadyRated, num).0
    ensures num >= 1 ==> |rec| <= num
  {
    var sorted := SortDesc(predictions, Rating);
    SortDescDistinct(predictions, Rating, Joke);
    var jokesToRecommend: set<int> := {};
    ghost var picked: seq<Prediction> := [];
    ghost var skipped: seq<Prediction> := [];
    ghost var done := false;
    for i := 0 to |sorted|
      invariant picked == Select(sorted[..i], alreadyRated, num).0
      invariant skipped == Select(sorted[..i], alreadyRated, num).1
      invariant jokesToRecommend == Jokes(picked)
      invariant |jokesToRecommend| == |picked|
      invariant DistinctBy(picked, Joke)
      invariant !Stopped(|picked|, num)
    {
      SelectStep(sorted, i, alreadyRated, num, picked, skipped);
      var (jokeId, predictedRating) := sorted[i];
      if jokeId !in alreadyRated {
        FreshJoke(sorted, i, alreadyRated, num);
        JokesSnoc(picked, sorted[i]);
        DistinctSnoc(picked, sorted[i]);
        jokesToRecommend := jokesToRecommend + {jokeId};
        picked := picked + [sorted[i]];
        if |jokesToRecommend| == num {
          SelectStaysStopped(sorted, i + 1, alreadyRated, num);
          done := true;
          break;
        }
      } else {
        skipped := skipped + [sorted[i]];
      }
    }
    if !done {
      assert sorted[..|sorted|] == sorted;
    }
    rec := SortDesc(Restrict(predictions, jokesToRecommend), Rating);
    KeptFromPredictions(predictions, sorted, alreadyRated, num);
    KeptRows(predictions, picked);
    RestrictDistinct(predictions, jokesToRecommend);
    SortDescMembers(Restrict(predictions, jokesToRecommend), Rating);
    SameMembersSameMultiset(Restrict(predictions, jokesToRecommend), picked, Joke);
    SelectMeaning(sorted, alreadyRated, num);
    assert |rec| == |multiset(rec)| == |multiset(picked)| == |picked|;
  }
}
