/**
 * Mean Reciprocal Rank and Average Precision over the labels of a ranked
 * list of recommendations, as `evaluate_recommendations_using_MRR` and
 * `evaluate_recommendations_using_AP` compute them: relevant items are those
 * whose label is exactly `relevant` ('Y' for liked movies, 'P' for
 * positively rated jokes); every other label counts as not relevant.
 */
module RankingMetrics {

  /** The label of each ranked item, in order. */
  function LabelsOf<T, L>(items: seq<T>, labelOf: T -> L): (r: seq<L>)
    ensures |r| == |items|
    ensures forall i :: 0 <= i < |r| ==> r[i] == labelOf(items[i])
  {
    seq(|items|, i requires 0 <= i < |items| => labelOf(items[i]))
  }

  /** `labels.count(relevant)` */
  function CountOf<T(==)>(labels: seq<T>, relevant: T): (c: nat)
    ensures c <= |labels|
  {
    if |labels| == 0 then 0
    else CountOf(labels[..|labels| - 1], relevant) + (if labels[|labels| - 1] == relevant then 1 else 0)
  }

  /** `sum(xs)` */
  function Sum(xs: seq<real>): real
  {
    if |xs| == 0 then 0.0 else Sum(xs[..|xs| - 1]) + xs[|xs| - 1]
  }

  /** Σ 1/(i+1) over the relevant positions i. */
  function ReciprocalRanks<T(==)>(labels: seq<T>, relevant: T): real
  {
    if |labels| == 0 then 0.0
    else
      ReciprocalRanks(labels[..|labels| - 1], relevant)
      + (if labels[|labels| - 1] == relevant then 1.0 / |labels| as real else 0.0)
  }

  /** Σ (relevant items up to i) / (i+1) over the relevant positions i. */
  function Precisions<T(==)>(labels: seq<T>, relevant: T): real
  {
    if |labels| == 0 then 0.0
    else
      Precisions(labels[..|labels| - 1], relevant)
      + (if labels[|labels| - 1] == relevant then CountOf(labels, relevant) as real / |labels| as real else 0.0)
  }

  /** The mean reciprocal rank, 0 when nothing is relevant. */
  function Mrr<T(==)>(labels: seq<T>, relevant: T): real
  {
    if CountOf(labels, relevant) == 0 then 0.0
    else ReciprocalRanks(labels, relevant) / CountOf(labels, relevant) as real
  }

  /** The average precision, 0 when nothing is relevant. */
  function Ap<T(==)>(labels: seq<T>, relevant: T): real
  {
    if CountOf(labels, relevant) == 0 then 0.0
    else Precisions(labels, relevant) / CountOf(labels, relevant) as real
  }

  /**
   * Counts the relevant items, returns 0 when there are none, otherwise
   * appends 1/(i+1) for each relevant position i and averages the list.
   */
  method MeanReciprocalRank<T(==)>(labels: seq<T>, relevant: T) returns (mrr: real)
    ensures mrr == Mrr(labels, relevant)
  {
    var numRelevantItems := CountOf(labels, relevant);
    if numRelevantItems == 0 {
      return 0.0;
    }
    var reciprocalRanks: seq<real> := [];
    for i := 0 to |labels|
      invariant Sum(reciprocalRanks) == ReciprocalRanks(labels[..i], relevant)
    {
      assert labels[..i + 1][..i] == labels[..i];
      if labels[i] == relevant {
        var itemReciprocalRank := 1.0 / (i + 1) as real;
        assert (reciprocalRanks + [itemReciprocalRank])[..|reciprocalRanks|] == reciprocalRanks;
        reciprocalRanks := reciprocalRanks + [itemReciprocalRank];
      }
    }
    assert labels[..|labels|] == labels;
    mrr := Sum(reciprocalRanks) / numRelevantItems as real;
  }

  /**
   * Counts the relevant items, returns 0 when there are none, otherwise
   * appends the precision so far at each relevant position and averages the
   * list.
   */
  method AveragePrecision<T(==)>(labels: seq<T>, relevant: T) returns (ap: real)
    ensures ap == Ap(labels, relevant)
  {
    var numRelevantItems := CountOf(labels, relevant);
    if numRelevantItems == 0 {
      return 0.0;
    }
    var precisions: seq<real> := [];
    var relevantSoFar := 0;
    for i := 0 to |labels|
      invariant relevantSoFar == CountOf(labels[..i], relevant)
      invariant Sum(precisions) == Precisions(labels[..i], relevant)
    {
      assert labels[..i + 1][..i] == labels[..i];
      if labels[i] == relevant {
        relevantSoFar := relevantSoFar + 1;
        var precision := relevantSoFar as real / (i + 1) as real;
        assert (precisions + [precision])[..|precisions|] == precisions;
        precisions := precisions + [precision];
      }
    }
    assert labels[..|labels|] == labels;
    ap := Sum(precisions) / numRelevantItems as real;
  }

  // ---------------------------------------------------------------------------
  // Properties
  // ---------------------------------------------------------------------------

  lemma Quotient(x: real, c: real)
    requires 0.0 < c && 0.0 <= x <= c
    ensures 0.0 <= x / c <= 1.0
    ensures x > 0.0 ==> x / c > 0.0
    ensures x / c == 1.0 <==> x == c
  {
  }

  lemma {:induction false} ReciprocalRanksBounds<T>(labels: seq<T>, relevant: T)
    ensures 0.0 <= ReciprocalRanks(labels, relevant) <= CountOf(labels, relevant) as real
    ensures CountOf(labels, relevant) > 0 ==> ReciprocalRanks(labels, relevant) > 0.0
    decreases |labels|
  {
    if |labels| > 0 {
      ReciprocalRanksBounds(labels[..|labels| - 1], relevant);
      Quotient(1.0, |labels| as real);
    }
  }

  /** With some relevant item the MRR lies in (0, 1]. */
  lemma MrrBounds<T>(labels: seq<T>, relevant: T)
    ensures CountOf(labels, relevant) == 0 ==> Mrr(labels, relevant) == 0.0
    ensures CountOf(labels, relevant) > 0 ==> 0.0 < Mrr(labels, relevant) <= 1.0
  {
    ReciprocalRanksBounds(labels, relevant);
    var c := CountOf(labels, relevant) as real;
    if c > 0.0 {
      Quotient(ReciprocalRanks(labels, relevant), c);
    }
  }

  lemma {:induction false} PrecisionsBounds<T>(labels: seq<T>, relevant: T)
    ensures 0.0 <= Precisions(labels, relevant) <= CountOf(labels, relevant) as real
    ensures CountOf(labels, relevant) > 0 ==> Precisions(labels, relevant) > 0.0
    decreases |labels|
  {
    if |labels| > 0 {
      PrecisionsBounds(labels[..|labels| - 1], relevant);
      Quotient(CountOf(labels, relevant) as real, |labels| as real);
    }
  }

  /** Each precision term is at most 1, so with some relevant item the AP lies in (0, 1]. */
  lemma ApBounds<T>(labels: seq<T>, relevant: T)
    ensures CountOf(labels, relevant) == 0 ==> Ap(labels, relevant) == 0.0
    ensures CountOf(labels, relevant) > 0 ==> 0.0 < Ap(labels, relevant) <= 1.0
  {
    PrecisionsBounds(labels, relevant);
    var c := CountOf(labels, relevant) as real;
    if c > 0.0 {
      Quotient(Precisions(labels, relevant), c);
    }
  }

  /** Every relevant item comes before every other item. */
  predicate RelevantFirst<T(==)>(labels: seq<T>, relevant: T)
  {
    forall i, j :: 0 <= i < j < |labels| && labels[j] == relevant ==> labels[i] == relevant
  }

  predicate AllRelevant<T(==)>(labels: seq<T>, relevant: T)
  {
    forall i :: 0 <= i < |labels| ==> labels[i] == relevant
  }

  lemma {:induction false} CountAll<T>(labels: seq<T>, relevant: T)
    ensures CountOf(labels, relevant) == |labels| <==> AllRelevant(labels, relevant)
    decreases |labels|
  {
    if |labels| > 0 {
      var init := labels[..|labels| - 1];
      CountAll(init, relevant);
      if AllRelevant(labels, relevant) {
        assert forall i :: 0 <= i < |init| ==> init[i] == labels[i];
      }
    }
  }

  lemma RelevantFirstSnoc<T>(init: seq<T>, x: T, relevant: T)
    ensures RelevantFirst(init + [x], relevant) <==>
      RelevantFirst(init, relevant) && (x == relevant ==> AllRelevant(init, relevant))
  {
    var s := init + [x];
    if RelevantFirst(s, relevant) {
      forall i, j | 0 <= i < j < |init| && init[j] == relevant ensures init[i] == relevant {
        assert s[i] == init[i] && s[j] == init[j];
      }
      if x == relevant {
        forall i | 0 <= i < |init| ensures init[i] == relevant {
          assert s[i] == init[i] && s[|init|] == x;
        }
      }
    }
  }

  lemma {:induction false} PrecisionsFull<T>(labels: seq<T>, relevant: T)
    ensures Precisions(labels, relevant) == CountOf(labels, relevant) as real <==> RelevantFirst(labels, relevant)
    decreases |labels|
  {
    if |labels| > 0 {
      var init, x := labels[..|labels| - 1], labels[|labels| - 1];
      assert labels == init + [x];
      PrecisionsFull(init, relevant);
      PrecisionsBounds(init, relevant);
      RelevantFirstSnoc(init, x, relevant);
      if x == relevant {
        Quotient(CountOf(labels, relevant) as real, |labels| as real);
        CountAll(labels, relevant);
        CountAll(init, relevant);
        if AllRelevant(init, relevant) {
          assert AllRelevant(labels, relevant);
        }
        if AllRelevant(labels, relevant) {
          assert forall i :: 0 <= i < |init| ==> init[i] == labels[i];
        }
      }
    }
  }

  /** The AP is 1 exactly when there is a relevant item and all relevant items come first. */
  lemma ApOneIff<T>(labels: seq<T>, relevant: T)
    ensures Ap(labels, relevant) == 1.0 <==> CountOf(labels, relevant) > 0 && RelevantFirst(labels, relevant)
  {
    PrecisionsFull(labels, relevant);
    var c := CountOf(labels, relevant) as real;
    if c > 0.0 {
      PrecisionsBounds(labels, relevant);
      Quotient(Precisions(labels, relevant), c);
    }
  }

  /**
   * Only relevance matters: two label lists that mark the same positions as
   * relevant (with possibly different labels) have the same MRR and AP.
   */
  lemma {:induction false} OnlyRelevanceMatters<T, U>(s: seq<T>, r: T, t: seq<U>, q: U)
    requires |s| == |t| && forall i :: 0 <= i < |s| ==> (s[i] == r <==> t[i] == q)
    ensures CountOf(s, r) == CountOf(t, q)
    ensures ReciprocalRanks(s, r) == ReciprocalRanks(t, q)
    ensures Precisions(s, r) == Precisions(t, q)
    ensures Mrr(s, r) == Mrr(t, q) && Ap(s, r) == Ap(t, q)
    decreases |s|
  {
    if |s| > 0 {
      var n := |s| - 1;
      OnlyRelevanceMatters(s[..n], r, t[..n], q);
    }
  }
}
