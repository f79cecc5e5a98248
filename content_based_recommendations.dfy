/**
 * The ranking steps of the content-based movie recommender: the top-k cut
 * of `recommend_movies` and the MRR / AP evaluation of a list of liked
 * ('Y') and not liked recommendations. The weighted similarity of a
 * candidate title to the input title (`compute_similarity`) is a function
 * given as a parameter.
 */
module ContentBasedRecommendations {
  import opened Ranking
  import opened Results
  import opened OrderedDicts
  import RankingMetrics

  /** A candidate title with its similarity to the input title. */
  type Recommendation = (string, real)

  function Similarity(r: Recommendation): real { r.1 }

  /** `recommendation_results` after the candidates `titles`, in insertion order. */
  function ResultsOf(titles: seq<string>, similarity: string -> real): seq<Recommendation>
    decreases |titles|
  {
    if |titles| == 0 then []
    else
      var t := titles[|titles| - 1];
      Put(ResultsOf(titles[..|titles| - 1], similarity), t, similarity(t))
  }

  /** The results hold one item per distinct candidate title, carrying that title's similarity. */
  lemma {:induction false} ResultsOfMeaning(titles: seq<string>, similarity: string -> real)
    ensures DistinctBy(ResultsOf(titles, similarity), Key)
    ensures forall t :: Get(ResultsOf(titles, similarity), t) == if t in titles then Some(similarity(t)) else None
    decreases |titles|
  {
    if |titles| > 0 {
      var init, t := titles[..|titles| - 1], titles[|titles| - 1];
      ResultsOfMeaning(init, similarity);
      var prev := ResultsOf(init, similarity);
      PutDistinct(prev, t, similarity(t));
      forall x ensures Get(ResultsOf(titles, similarity), x) == if x in titles then Some(similarity(x)) else None {
        PutGet(prev, t, similarity(t), x);
        assert titles == init + [t];
      }
    }
  }

  /**
   * Scores every candidate into a dict keyed by title, then returns the
   * `k` best of them: `sorted(results.items(), ...)[:k]`.
   */
  method RecommendMovies(titles: seq<string>, similarity: string -> real, k: int)
    returns (top: seq<Recommendation>)
    ensures top == Slice(SortDesc(ResultsOf(titles, similarity), Similarity), k)
  {
    var recommendationResults: seq<Recommendation> := [];
    for i := 0 to |titles|
      invariant recommendationResults == ResultsOf(titles[..i], similarity)
    {
      assert titles[..i + 1][..i] == titles[..i];
      var candidate := titles[i];
      recommendationResults := Put(recommendationResults, candidate, similarity(candidate));
    }
    assert titles[..|titles|] == titles;
    top := Slice(SortDesc(recommendationResults, Similarity), k);
  }

  /**
   * What `recommend_movies` returns: at most `k` items when `k >= 0`, in
   * non-increasing similarity, each a distinct candidate title with its
   * similarity, and no candidate left out scores higher than one kept.
   */
  lemma TopKMeaning(titles: seq<string>, similarity: string -> real, k: int)
    ensures var top := Slice(SortDesc(ResultsOf(titles, similarity), Similarity), k);
      && (0 <= k ==> |top| <= k)
      && SortedDesc(top, Similarity)
      && DistinctBy(top, Key)
      && (forall e :: e in top ==> e.0 in titles && e.1 == similarity(e.0))
      && (forall e, t :: e in top && t in titles && Get(top, t).None? ==> similarity(t) <= e.1)
  {
    var results := ResultsOf(titles, similarity);
    var sorted := SortDesc(results, Similarity);
    var top := Slice(sorted, k);
    ResultsOfMeaning(titles, similarity);
    SortDescDistinct(results, Similarity, Key);
    SortDescMembers(results, Similarity);
    SliceKeepsOrder(sorted, k, Similarity);
    assert DistinctBy(top, Key);
    forall e | e in top ensures e.0 in titles && e.1 == similarity(e.0) {
      GetMember(results, e);
    }
    forall e, t | e in top && t in titles && Get(top, t).None? ensures similarity(t) <= e.1 {
      GetMember(results, (t, similarity(t)));
      var a :| 0 <= a < |sorted| && sorted[a] == (t, similarity(t));
      var b :| 0 <= b < |top| && top[b] == e;
      if a < |top| {
        assert top[a] == (t, similarity(t));
        GetMember(top, (t, similarity(t)));
      }
    }
  }

  /** The liked / not-liked label of a recommended title. */
  function Label(recommended: (string, char)): char { recommended.1 }

  /** `evaluate_recommendations_using_MRR`: liked ('Y') titles are the relevant ones. */
  method EvaluateUsingMrr(recommended: seq<(string, char)>) returns (mrr: real)
    ensures mrr == RankingMetrics.Mrr(RankingMetrics.LabelsOf(recommended, Label), 'Y')
    ensures RankingMetrics.CountOf(RankingMetrics.LabelsOf(recommended, Label), 'Y') == 0 ==> mrr == 0.0
    ensures RankingMetrics.CountOf(RankingMetrics.LabelsOf(recommended, Label), 'Y') > 0 ==> 0.0 < mrr <= 1.0
  {
    mrr := RankingMetrics.MeanReciprocalRank(RankingMetrics.LabelsOf(recommended, Label), 'Y');
    RankingMetrics.MrrBounds(RankingMetrics.LabelsOf(recommended, Label), 'Y');
  }

  /** `evaluate_recommendations_using_AP`: liked ('Y') titles are the relevant ones. */
  method EvaluateUsingAp(recommended: seq<(string, char)>) returns (ap: real)
    ensures ap == RankingMetrics.Ap(RankingMetrics.LabelsOf(recommended, Label), 'Y')
    ensures RankingMetrics.CountOf(RankingMetrics.LabelsOf(recommended, Label), 'Y') == 0 ==> ap == 0.0
    ensures RankingMetrics.CountOf(RankingMetrics.LabelsOf(recommended, Label), 'Y') > 0 ==> 0.0 < ap <= 1.0
    ensures ap == 1.0 <==> RankingMetrics.CountOf(RankingMetrics.LabelsOf(recommended, Label), 'Y') > 0 && RankingMetrics.RelevantFirst(RankingMetrics.LabelsOf(recommended, Label), 'Y')
  {
    ap := RankingMetrics.AveragePrecision(RankingMetrics.LabelsOf(recommended, Label), 'Y');
    RankingMetrics.ApBounds(RankingMetrics.LabelsOf(recommended, Label), 'Y');
    RankingMetrics.ApOneIff(RankingMetrics.LabelsOf(recommended, Label), 'Y');
  }
}
