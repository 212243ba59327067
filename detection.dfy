/** The metric engine: group-conditioned rates over binary predictions and
    the fairness statistics built from them, unprivileged minus (or over)
    privileged. The same definitions serve the canonical module and its
    older autosaved copy, whose `disparate_impact_ratio` is
    `DisparateImpact` under its former name. */
module Detection {
  import opened Outcomes
  import opened Tallies

  /** `y_pred[sensitive_features == g].mean()`: nan for an empty group. A
      `PredSum` tally does not read the label column, so the predictions
      stand in for it. */
  function PositiveRate<G(==)>(preds: seq<int>, sens: seq<G>, g: G): Metric
    requires |preds| == |sens|
  {
    Ratio(GroupTally(PredSum, preds, preds, sens, g), GroupSize(sens, g))
  }

  /** Among the samples of group `g` labelled `y`, the fraction predicted 1:
      the true-positive rate for `y == 1`, the false-positive rate for
      `y == 0`; nan (0/0) when the group has no sample labelled `y`. */
  function PositiveRateAmong<G(==)>(y: int, truth: seq<int>, preds: seq<int>, sens: seq<G>, g: G): Metric
    requires |truth| == |preds| == |sens|
  {
    Ratio(GroupTally(Hit(y), truth, preds, sens, g), GroupTally(Labelled(y), truth, preds, sens, g))
  }

  function TruePositiveRate<G(==)>(truth: seq<int>, preds: seq<int>, sens: seq<G>, g: G): Metric
    requires |truth| == |preds| == |sens|
  {
    PositiveRateAmong(1, truth, preds, sens, g)
  }

  function FalsePositiveRate<G(==)>(truth: seq<int>, preds: seq<int>, sens: seq<G>, g: G): Metric
    requires |truth| == |preds| == |sens|
  {
    PositiveRateAmong(0, truth, preds, sens, g)
  }

  /** `(y_true[mask] == y_pred[mask]).mean()`: nan for an empty group. */
  function Accuracy<G(==)>(truth: seq<int>, preds: seq<int>, sens: seq<G>, g: G): Metric
    requires |truth| == |preds| == |sens|
  {
    Ratio(GroupTally(Correct, truth, preds, sens, g), GroupSize(sens, g))
  }

  // ---------------------------------------------------------------------
  // The six metrics

  function StatisticalParityDifference<G(==)>(preds: seq<int>, sens: seq<G>, priv: G, unpriv: G): Metric
    requires |preds| == |sens|
  {
    Difference(PositiveRate(preds, sens, unpriv), PositiveRate(preds, sens, priv))
  }

  /** The privileged rate is compared with 0 first: 0 gives `inf` whatever
      the unprivileged rate is; a nan privileged rate makes the quotient nan. */
  function DisparateImpact<G(==)>(preds: seq<int>, sens: seq<G>, priv: G, unpriv: G): Metric
    requires |preds| == |sens|
  {
    match PositiveRate(preds, sens, priv)
    case Value(pp) =>
      if pp == 0.0 then Infinite
      else (match PositiveRate(preds, sens, unpriv)
            case Value(pu) => Value(pu / pp)
            case _ => Undefined)
    case _ => Undefined
  }

  function EqualOpportunityDifference<G(==)>(truth: seq<int>, preds: seq<int>, sens: seq<G>, priv: G, unpriv: G): Metric
    requires |truth| == |preds| == |sens|
  {
    Difference(TruePositiveRate(truth, preds, sens, unpriv), TruePositiveRate(truth, preds, sens, priv))
  }

  function TruePositiveRateDifference<G(==)>(truth: seq<int>, preds: seq<int>, sens: seq<G>, priv: G, unpriv: G): Metric
    requires |truth| == |preds| == |sens|
  {
    Difference(TruePositiveRate(truth, preds, sens, unpriv), TruePositiveRate(truth, preds, sens, priv))
  }

  function FalsePositiveRateDifference<G(==)>(truth: seq<int>, preds: seq<int>, sens: seq<G>, priv: G, unpriv: G): Metric
    requires |truth| == |preds| == |sens|
  {
    Difference(FalsePositiveRate(truth, preds, sens, unpriv), FalsePositiveRate(truth, preds, sens, priv))
  }

  function AccuracyDifference<G(==)>(truth: seq<int>, preds: seq<int>, sens: seq<G>, priv: G, unpriv: G): Metric
    requires |truth| == |preds| == |sens|
  {
    Difference(Accuracy(truth, preds, sens, unpriv), Accuracy(truth, preds, sens, priv))
  }

  // ---------------------------------------------------------------------
  // Rates

  /** Over binary predictions the positive rate of a group is defined exactly
      when the group is non-empty, and then lies in [0, 1]. */
  lemma PositiveRateInUnit<G>(preds: seq<int>, sens: seq<G>, g: G)
    requires |preds| == |sens| && IsBinary(preds)
    ensures PositiveRate(preds, sens, g).Value? <==> g in sens
    ensures PositiveRate(preds, sens, g).Value? ==> 0.0 <= PositiveRate(preds, sens, g).x <= 1.0
  {
    TallyWithinGroup(PredSum, preds, preds, sens, g);
    GroupSizePositive(sens, g);
    if g in sens {
      RatioOfPart(GroupTally(PredSum, preds, preds, sens, g), GroupSize(sens, g));
    }
  }

  /** The rate among label `y` is nan exactly when group `g` has no sample
      labelled `y`, and otherwise lies in [0, 1]. */
  lemma PositiveRateAmongInUnit<G>(y: int, truth: seq<int>, preds: seq<int>, sens: seq<G>, g: G)
    requires |truth| == |preds| == |sens|
    ensures var r := PositiveRateAmong(y, truth, preds, sens, g);
      (r.Undefined? <==> GroupTally(Labelled(y), truth, preds, sens, g) == 0) &&
      (r.Value? ==> 0.0 <= r.x <= 1.0)
  {
    HitsWithinLabelled(y, truth, preds, sens, g);
    if GroupTally(Labelled(y), truth, preds, sens, g) != 0 {
      RatioOfPart(GroupTally(Hit(y), truth, preds, sens, g), GroupTally(Labelled(y), truth, preds, sens, g));
    }
  }

  /** The rate among label `y` reads the predictions of samples labelled `y`
      only: the TPR ignores the negatives, the FPR the positives. */
  lemma PositiveRateAmongReadsOnlyLabel<G>(y: int, truth: seq<int>, preds: seq<int>, preds': seq<int>, sens: seq<G>, g: G)
    requires |truth| == |preds| == |preds'| == |sens|
    requires forall i | 0 <= i < |sens| && truth[i] == y :: preds[i] == preds'[i]
    ensures PositiveRateAmong(y, truth, preds, sens, g) == PositiveRateAmong(y, truth, preds', sens, g)
  {
    TallyReadsOnlyLabel(Hit(y), truth, preds, preds', sens, g);
    TallyReadsOnlyLabel(Labelled(y), truth, preds, preds', sens, g);
  }

  // ---------------------------------------------------------------------
  // Statistical parity and disparate impact

  /** Over binary predictions SPD is defined exactly when both groups are
      present, then lies in [-1, 1], and is 0 exactly when both groups have
      the same positive rate. */
  lemma ParityDifferenceRange<G>(preds: seq<int>, sens: seq<G>, priv: G, unpriv: G)
    requires |preds| == |sens| && IsBinary(preds)
    ensures var d := StatisticalParityDifference(preds, sens, priv, unpriv);
      (d.Value? <==> priv in sens && unpriv in sens) &&
      (d.Value? ==> -1.0 <= d.x <= 1.0) &&
      (d.Value? ==> (d.x == 0.0 <==> PositiveRate(preds, sens, priv) == PositiveRate(preds, sens, unpriv)))
  {
    PositiveRateInUnit(preds, sens, priv);
    PositiveRateInUnit(preds, sens, unpriv);
  }

  /** The infinity sentinel appears exactly when the privileged rate is 0;
      otherwise, with both rates defined, the result is their quotient. */
  lemma DisparateImpactSentinel<G>(preds: seq<int>, sens: seq<G>, priv: G, unpriv: G)
    requires |preds| == |sens|
    ensures DisparateImpact(preds, sens, priv, unpriv).Infinite? <==> PositiveRate(preds, sens, priv) == Value(0.0)
    ensures var pp, pu := PositiveRate(preds, sens, priv), PositiveRate(preds, sens, unpriv);
      pp.Value? && pp.x != 0.0 && pu.Value? ==> DisparateImpact(preds, sens, priv, unpriv) == Value(pu.x / pp.x)
    ensures PositiveRate(preds, sens, priv).Undefined? ==> DisparateImpact(preds, sens, priv, unpriv).Undefined?
  {
  }

  /** Over binary predictions a finite disparate impact is non-negative,
      and equal defined non-zero rates give exactly 1. */
  lemma DisparateImpactNonNegative<G>(preds: seq<int>, sens: seq<G>, priv: G, unpriv: G)
    requires |preds| == |sens| && IsBinary(preds)
    ensures var di := DisparateImpact(preds, sens, priv, unpriv);
      (di.Value? ==> di.x >= 0.0) &&
      (PositiveRate(preds, sens, priv) == PositiveRate(preds, sens, unpriv) && di.Value? ==> di.x == 1.0)
  {
    PositiveRateInUnit(preds, sens, priv);
    PositiveRateInUnit(preds, sens, unpriv);
    var pp, pu := PositiveRate(preds, sens, priv), PositiveRate(preds, sens, unpriv);
    if pp.Value? && pp.x != 0.0 && pu.Value? {
      assert pp.x > 0.0;
      var q := pu.x / pp.x;
      assert q * pp.x == pu.x;
    }
  }

  // ---------------------------------------------------------------------
  // Error-rate differences

  /** The two names compute the same statistic. */
  lemma EqualOpportunityIsTruePositiveRateDifference<G>(truth: seq<int>, preds: seq<int>, sens: seq<G>, priv: G, unpriv: G)
    requires |truth| == |preds| == |sens|
    ensures EqualOpportunityDifference(truth, preds, sens, priv, unpriv)
         == TruePositiveRateDifference(truth, preds, sens, priv, unpriv)
  {
  }

  /** The TPR difference is nan exactly when a group has no positive sample,
      the FPR difference exactly when a group has no negative sample;
      otherwise each lies in [-1, 1]. */
  lemma ErrorRateDifferencesRange<G>(truth: seq<int>, preds: seq<int>, sens: seq<G>, priv: G, unpriv: G)
    requires |truth| == |preds| == |sens|
    ensures var d := TruePositiveRateDifference(truth, preds, sens, priv, unpriv);
      (d.Undefined? <==> (GroupTally(Labelled(1), truth, preds, sens, priv) == 0 ||
                          GroupTally(Labelled(1), truth, preds, sens, unpriv) == 0)) &&
      (d.Value? ==> -1.0 <= d.x <= 1.0)
    ensures var d := FalsePositiveRateDifference(truth, preds, sens, priv, unpriv);
      (d.Undefined? <==> (GroupTally(Labelled(0), truth, preds, sens, priv) == 0 ||
                          GroupTally(Labelled(0), truth, preds, sens, unpriv) == 0)) &&
      (d.Value? ==> -1.0 <= d.x <= 1.0)
  {
    PositiveRateAmongInUnit(1, truth, preds, sens, priv);
    PositiveRateAmongInUnit(1, truth, preds, sens, unpriv);
    PositiveRateAmongInUnit(0, truth, preds, sens, priv);
    PositiveRateAmongInUnit(0, truth, preds, sens, unpriv);
  }

  /** Changing the prediction of a negative sample leaves the TPR difference
      alone; changing that of a positive sample leaves the FPR difference alone. */
  lemma ErrorRateDifferencesReadOnlyTheirLabel<G>(truth: seq<int>, preds: seq<int>, preds': seq<int>, sens: seq<G>, priv: G, unpriv: G)
    requires |truth| == |preds| == |preds'| == |sens|
    ensures (forall i | 0 <= i < |sens| && truth[i] == 1 :: preds[i] == preds'[i]) ==>
      TruePositiveRateDifference(truth, preds, sens, priv, unpriv) == TruePositiveRateDifference(truth, preds', sens, priv, unpriv)
    ensures (forall i | 0 <= i < |sens| && truth[i] == 0 :: preds[i] == preds'[i]) ==>
      FalsePositiveRateDifference(truth, preds, sens, priv, unpriv) == FalsePositiveRateDifference(truth, preds', sens, priv, unpriv)
  {
    if forall i | 0 <= i < |sens| && truth[i] == 1 :: preds[i] == preds'[i] {
      PositiveRateAmongReadsOnlyLabel(1, truth, preds, preds', sens, priv);
      PositiveRateAmongReadsOnlyLabel(1, truth, preds, preds', sens, unpriv);
    }
    if forall i | 0 <= i < |sens| && truth[i] == 0 :: preds[i] == preds'[i] {
      PositiveRateAmongReadsOnlyLabel(0, truth, preds, preds', sens, priv);
      PositiveRateAmongReadsOnlyLabel(0, truth, preds, preds', sens, unpriv);
    }
  }

  /** Accuracy difference is defined exactly when both groups are present,
      and then lies in [-1, 1]. */
  lemma AccuracyDifferenceRange<G>(truth: seq<int>, preds: seq<int>, sens: seq<G>, priv: G, unpriv: G)
    requires |truth| == |preds| == |sens|
    ensures var d := AccuracyDifference(truth, preds, sens, priv, unpriv);
      (d.Value? <==> priv in sens && unpriv in sens) &&
      (d.Value? ==> -1.0 <= d.x <= 1.0)
  {
    TallyWithinGroup(Correct, truth, preds, sens, priv);
    TallyWithinGroup(Correct, truth, preds, sens, unpriv);
    GroupSizePositive(sens, priv);
    GroupSizePositive(sens, unpriv);
    if priv in sens {
      RatioOfPart(GroupTally(Correct, truth, preds, sens, priv), GroupSize(sens, priv));
    }
    if unpriv in sens {
      RatioOfPart(GroupTally(Correct, truth, preds, sens, unpriv), GroupSize(sens, unpriv));
    }
  }

  // ---------------------------------------------------------------------
  // Properties shared by all metrics

  /** Samples whose attribute is neither named group affect no metric: each
      equals its value on the columns restricted to the two groups. */
  lemma OtherGroupsIgnored<G>(truth: seq<int>, preds: seq<int>, sens: seq<G>, priv: G, unpriv: G)
    requires |truth| == |preds| == |sens|
    ensures var q := Restrict(preds, preds, sens, priv, unpriv);
      StatisticalParityDifference(q.1, q.2, priv, unpriv) == StatisticalParityDifference(preds, sens, priv, unpriv) &&
      DisparateImpact(q.1, q.2, priv, unpriv) == DisparateImpact(preds, sens, priv, unpriv)
    ensures var r := Restrict(truth, preds, sens, priv, unpriv);
      EqualOpportunityDifference(r.0, r.1, r.2, priv, unpriv) == EqualOpportunityDifference(truth, preds, sens, priv, unpriv) &&
      TruePositiveRateDifference(r.0, r.1, r.2, priv, unpriv) == TruePositiveRateDifference(truth, preds, sens, priv, unpriv) &&
      FalsePositiveRateDifference(r.0, r.1, r.2, priv, unpriv) == FalsePositiveRateDifference(truth, preds, sens, priv, unpriv) &&
      AccuracyDifference(r.0, r.1, r.2, priv, unpriv) == AccuracyDifference(truth, preds, sens, priv, unpriv)
  {
    RestrictDiagonal(preds, sens, priv, unpriv);
    RestrictKeepsTallies(PredSum, preds, preds, sens, priv, unpriv, priv);
    RestrictKeepsTallies(PredSum, preds, preds, sens, priv, unpriv, unpriv);
    var kinds := [Hit(1), Labelled(1), Hit(0), Labelled(0), Correct];
    forall k, g | k in kinds && (g == priv || g == unpriv)
      ensures var r := Restrict(truth, preds, sens, priv, unpriv);
        GroupSize(r.2, g) == GroupSize(sens, g) &&
        GroupTally(k, r.0, r.1, r.2, g) == GroupTally(k, truth, preds, sens, g)
    {
      RestrictKeepsTallies(k, truth, preds, sens, priv, unpriv, g);
    }
  }

  /** Exchanging the roles of the two groups negates every difference. */
  lemma SwappingGroupsNegates<G>(truth: seq<int>, preds: seq<int>, sens: seq<G>, priv: G, unpriv: G)
    requires |truth| == |preds| == |sens|
    ensures StatisticalParityDifference(preds, sens, unpriv, priv) == StatisticalParityDifference(preds, sens, priv, unpriv).Negate()
    ensures EqualOpportunityDifference(truth, preds, sens, unpriv, priv) == EqualOpportunityDifference(truth, preds, sens, priv, unpriv).Negate()
    ensures TruePositiveRateDifference(truth, preds, sens, unpriv, priv) == TruePositiveRateDifference(truth, preds, sens, priv, unpriv).Negate()
    ensures FalsePositiveRateDifference(truth, preds, sens, unpriv, priv) == FalsePositiveRateDifference(truth, preds, sens, priv, unpriv).Negate()
    ensures AccuracyDifference(truth, preds, sens, unpriv, priv) == AccuracyDifference(truth, preds, sens, priv, unpriv).Negate()
  {
  }

  // ---------------------------------------------------------------------
  // The documented examples

  /** Predictions [1,0,1,0] over groups A,B,A,B with A privileged: SPD -1, DI 0. */
  lemma ParityExample()
    ensures StatisticalParityDifference([1, 0, 1, 0], ["A", "B", "A", "B"], "A", "B") == Value(-1.0)
    ensures DisparateImpact([1, 0, 1, 0], ["A", "B", "A", "B"], "A", "B") == Value(0.0)
  {
  }

  /** Labels [1,0,1,1], predictions [1,0,1,0], groups A,B,A,B: EOD -1. */
  lemma EqualOpportunityExample()
    ensures EqualOpportunityDifference([1, 0, 1, 1], [1, 0, 1, 0], ["A", "B", "A", "B"], "A", "B") == Value(-1.0)
  {
  }
}
