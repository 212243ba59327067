/** The post-processing calibrator: a flip rule for uncertain scores, an
    exhaustive grid search for two group thresholds that equalise a rate, and
    per-group thresholding of scores at given thresholds. */
module Postprocessing {
  import opened Outcomes
  import opened Tallies

  // ---------------------------------------------------------------------
  // reject_option_classification

  /** The score lies in the uncertainty band `low <= score <= high`. */
  predicate InBand(score: real, low: real, high: real) {
    low <= score <= high
  }

  /** The prediction one sample ends with: inside the band a `group_a`
      sample predicted 0 is raised to 1, otherwise a `group_b` sample
      predicted 1 is lowered to 0; everything else keeps its prediction. */
  function Reconsidered<G(==)>(score: real, pred: int, group: G, a: G, b: G, low: real, high: real): int {
    if InBand(score, low, high) then
      if group == a && pred == 0 then 1
      else if group == b && pred == 1 then 0
      else pred
    else pred
  }

  /** The adjusted predictions: the first `|scores|` entries reconsidered,
      the rest of the copy of `preds` untouched. */
  function RejectOption<G(==)>(scores: seq<real>, preds: seq<int>, sens: seq<G>, a: G, b: G,
                               low: real, high: real): (r: seq<int>)
    requires |scores| <= |preds| && |scores| <= |sens|
    ensures |r| == |preds|
  {
    seq(|preds|, i requires 0 <= i < |preds| =>
      if i < |scores| then Reconsidered(scores[i], preds[i], sens[i], a, b, low, high) else preds[i])
  }

  method RejectOptionClassification<G(==)>(scores: seq<real>, preds: seq<int>, sens: seq<G>, a: G, b: G,
                                           low: real, high: real) returns (adjusted: seq<int>)
    requires |scores| <= |preds| && |scores| <= |sens|
    ensures adjusted == RejectOption(scores, preds, sens, a, b, low, high)
  {
    var y := new int[|preds|](k requires 0 <= k < |preds| => preds[k]);
    for i := 0 to |scores|
      invariant forall k | 0 <= k < |preds| ::
        y[k] == if k < i then Reconsidered(scores[k], preds[k], sens[k], a, b, low, high) else preds[k]
    {
      if low <= scores[i] <= high {
        if sens[i] == a && preds[i] == 0 {
          y[i] := 1;
        } else if sens[i] == b && preds[i] == 1 {
          y[i] := 0;
        }
      }
    }
    adjusted := y[..];
  }

  /** A prediction changes exactly when its score is in the band and it is a
      `group_a` 0 or a `group_b` 1, and a change always inverts a 0/1 label. */
  lemma RejectOptionFlipsExactly<G>(scores: seq<real>, preds: seq<int>, sens: seq<G>, a: G, b: G,
                                    low: real, high: real, i: nat)
    requires |scores| <= |preds| && |scores| <= |sens|
    requires i < |preds|
    ensures var r := RejectOption(scores, preds, sens, a, b, low, high);
      (r[i] != preds[i] <==>
        (i < |scores| && InBand(scores[i], low, high) &&
         ((sens[i] == a && preds[i] == 0) || (sens[i] == b && preds[i] == 1)))) &&
      (r[i] != preds[i] ==> r[i] == 1 - preds[i])
  {
  }

  /** Running the rule on its own output changes nothing, provided the two
      groups are different. */
  lemma RejectOptionIdempotent<G>(scores: seq<real>, preds: seq<int>, sens: seq<G>, a: G, b: G,
                                  low: real, high: real)
    requires |scores| <= |preds| && |scores| <= |sens|
    requires a != b
    ensures var r := RejectOption(scores, preds, sens, a, b, low, high);
      RejectOption(scores, r, sens, a, b, low, high) == r
  {
    var r := RejectOption(scores, preds, sens, a, b, low, high);
    var r2 := RejectOption(scores, r, sens, a, b, low, high);
    forall i | 0 <= i < |preds| ensures r2[i] == r[i] {
      if i < |scores| {
        assert r[i] == Reconsidered(scores[i], preds[i], sens[i], a, b, low, high);
      }
    }
  }

  /** With one group named twice, an uncertain 0 is raised to 1 and then
      lowered back to 0: the rule is not idempotent. */
  lemma RejectOptionSameGroupFlipsBack()
    ensures RejectOption([0.5], [0], ["A"], "A", "A", 0.3, 0.7) == [1]
    ensures RejectOption([0.5], [1], ["A"], "A", "A", 0.3, 0.7) == [0]
  {
  }

  /** Scores [0.2, 0.5, 0.8, 0.4, 0.6], predictions [0, 1, 1, 0, 1], groups
      A, A, B, A, B, band [0.3, 0.7]: the result is [0, 1, 1, 1, 0]. */
  lemma RejectOptionExample()
    ensures RejectOption([0.2, 0.5, 0.8, 0.4, 0.6], [0, 1, 1, 0, 1], ["A", "A", "B", "A", "B"], "A", "B", 0.3, 0.7)
            == [0, 1, 1, 1, 0]
  {
  }

  // ---------------------------------------------------------------------
  // threshold_optimization

  /** The number of points of `np.linspace(0.01, 0.99, 50)`. */
  const GridSize: nat := 50

  /** Grid point `k`: `start + k * (stop - start) / (num - 1)`. */
  function Grid(k: nat): (t: real)
    requires k < GridSize
    ensures t == 0.01 + k as real * (0.99 - 0.01) / (GridSize - 1) as real
    ensures 0.0 < t < 1.0
  {
    0.01 + k as real * 0.02
  }

  lemma GridEnds()
    ensures Grid(0) == 0.01 && Grid(GridSize - 1) == 0.99
    ensures forall k | 0 < k < GridSize :: Grid(k - 1) < Grid(k)
  {
  }

  /** `y_prob >= t` as 0/1 predictions. */
  function Binarize(scores: seq<real>, t: real): (r: seq<int>)
    ensures |r| == |scores| && IsBinary(r)
  {
    seq(|scores|, i requires 0 <= i < |scores| => if scores[i] >= t then 1 else 0)
  }

  function Abs(x: real): real {
    if x < 0.0 then -x else x
  }

  /** Rate of positive predictions among a group's samples labelled `y`,
      with the count of such samples floored to 1: `tpr` for `y == 1`,
      `fpr` for `y == 0`. */
  function FlooredRate<G(==)>(truth: seq<int>, preds: seq<int>, sens: seq<G>, g: G, y: int): real
    requires |truth| == |preds| == |sens|
  {
    var support := GroupTally(Labelled(y), truth, preds, sens, g);
    GroupTally(Hit(y), truth, preds, sens, g) as real / (if support >= 1 then support else 1) as real
  }

  /** The rate of group `g` when its scores are cut at threshold `t`. */
  function ThresholdRate<G(==)>(truth: seq<int>, scores: seq<real>, sens: seq<G>, g: G, t: real, y: int): real
    requires |truth| == |scores| == |sens|
  {
    FlooredRate(truth, Binarize(scores, t), sens, g, y)
  }

  /** The label whose rate `metric` compares. */
  function MetricLabel(metric: string): (r: Result<int>)
    ensures r.Ok? <==> metric == "tpr" || metric == "fpr"
    ensures r.Err? ==> r.error == UnsupportedMetric(metric)
    ensures r == Ok(1) <==> metric == "tpr"
  {
    if metric == "tpr" then Ok(1)
    else if metric == "fpr" then Ok(0)
    else Err(UnsupportedMetric(metric))
  }

  /** `|rate_a - rate_b|` with `group_a` cut at grid point `i` and `group_b`
      at grid point `j`. */
  function Gap<G(==)>(truth: seq<int>, scores: seq<real>, sens: seq<G>, a: G, b: G, y: int, i: nat, j: nat): real
    requires |truth| == |scores| == |sens|
    requires i < GridSize && j < GridSize
  {
    Abs(ThresholdRate(truth, scores, sens, a, Grid(i), y) - ThresholdRate(truth, scores, sens, b, Grid(j), y))
  }

  /** Pair (p, q) comes before pair (i, j) in the search order: `t1` outer,
      `t2` inner. */
  predicate Before(p: nat, q: nat, i: nat, j: nat) {
    p < i || (p == i && q < j)
  }

  /** (i, j) has the smallest gap on the grid and no earlier pair has a gap
      as small. */
  predicate BestPair<G(==)>(truth: seq<int>, scores: seq<real>, sens: seq<G>, a: G, b: G, y: int, i: nat, j: nat)
    requires |truth| == |scores| == |sens|
    requires i < GridSize && j < GridSize
  {
    (forall p, q | 0 <= p < GridSize && 0 <= q < GridSize :: Gap(truth, scores, sens, a, b, y, i, j) <= Gap(truth, scores, sens, a, b, y, p, q)) &&
    (forall p, q | 0 <= p < GridSize && 0 <= q < GridSize && Before(p, q, i, j) ::
      Gap(truth, scores, sens, a, b, y, p, q) > Gap(truth, scores, sens, a, b, y, i, j))
  }

  method ThresholdOptimization<G(==)>(truth: seq<int>, scores: seq<real>, sens: seq<G>, a: G, b: G, metric: string)
    returns (r: Result<map<G, real>>)
    requires |truth| == |scores| == |sens|
    ensures r.Err? <==> metric != "tpr" && metric != "fpr"
    ensures r.Err? ==> r.error == UnsupportedMetric(metric)
    ensures r.Ok? ==> r.value.Keys == {a, b} && forall g | g in r.value :: 0.0 < r.value[g] < 1.0
    ensures r.Ok? ==> exists i, j | 0 <= i < GridSize && 0 <= j < GridSize ::
      r.value == map[a := Grid(i), b := Grid(j)] &&
      BestPair(truth, scores, sens, a, b, MetricLabel(metric).value, i, j)
  {
    var best: map<G, real> := map[];
    var bestDiff: real := 0.0;
    var found := false;  // false while `best_diff` is still infinite
    ghost var y0 := if metric == "fpr" then 0 else 1;
    ghost var bi, bj := 0, 0;
    for i := 0 to GridSize
      invariant found <==> i > 0
      invariant found ==> MetricLabel(metric) == Ok(y0)
      invariant found ==> bi < i && bj < GridSize && best == map[a := Grid(bi), b := Grid(bj)]
      invariant found ==> bestDiff == Gap(truth, scores, sens, a, b, y0, bi, bj)
      invariant found ==> forall p, q | 0 <= p < i && 0 <= q < GridSize ::
        bestDiff <= Gap(truth, scores, sens, a, b, y0, p, q)
      invariant found ==> forall p, q | 0 <= p < GridSize && 0 <= q < GridSize && Before(p, q, bi, bj) ::
        Gap(truth, scores, sens, a, b, y0, p, q) > bestDiff
    {
      for j := 0 to GridSize
        invariant found <==> i > 0 || j > 0
        invariant found ==> MetricLabel(metric) == Ok(y0)
        invariant found ==> Before(bi, bj, i, j) && bi < GridSize && bj < GridSize
        invariant found ==> best == map[a := Grid(bi), b := Grid(bj)]
        invariant found ==> bestDiff == Gap(truth, scores, sens, a, b, y0, bi, bj)
        invariant found ==> forall p, q | 0 <= p < GridSize && 0 <= q < GridSize && Before(p, q, i, j) ::
          bestDiff <= Gap(truth, scores, sens, a, b, y0, p, q)
        invariant found ==> forall p, q | 0 <= p < GridSize && 0 <= q < GridSize && Before(p, q, bi, bj) ::
          Gap(truth, scores, sens, a, b, y0, p, q) > bestDiff
      {
        var y: int;
        if metric == "tpr" {
          y := 1;
        } else if metric == "fpr" {
          y := 0;
        } else {
          return Err(UnsupportedMetric(metric));
        }
        var rateA := ThresholdRate(truth, scores, sens, a, Grid(i), y);
        var rateB := ThresholdRate(truth, scores, sens, b, Grid(j), y);
        var diff := Abs(rateA - rateB);
        assert diff == Gap(truth, scores, sens, a, b, y0, i, j);
        if !found || diff < bestDiff {
          found, bestDiff, best := true, diff, map[a := Grid(i), b := Grid(j)];
          bi, bj := i, j;
        }
      }
    }
    assert BestPair(truth, scores, sens, a, b, y0, bi, bj);
    return Ok(best);
  }

  /** A floored rate is a fraction in [0, 1], and 0 for a group without
      samples of the label. */
  lemma FlooredRateInUnit<G>(truth: seq<int>, preds: seq<int>, sens: seq<G>, g: G, y: int)
    requires |truth| == |preds| == |sens|
    ensures 0.0 <= FlooredRate(truth, preds, sens, g, y) <= 1.0
    ensures GroupTally(Labelled(y), truth, preds, sens, g) == 0 ==> FlooredRate(truth, preds, sens, g, y) == 0.0
  {
    HitsWithinLabelled(y, truth, preds, sens, g);
    var hits := GroupTally(Hit(y), truth, preds, sens, g);
    var support := GroupTally(Labelled(y), truth, preds, sens, g);
    if support >= 1 {
      RatioOfPart(hits, support);
    }
  }

  /** Every gap on the grid lies in [0, 1]. */
  lemma GapInUnit<G>(truth: seq<int>, scores: seq<real>, sens: seq<G>, a: G, b: G, y: int, i: nat, j: nat)
    requires |truth| == |scores| == |sens|
    requires i < GridSize && j < GridSize
    ensures 0.0 <= Gap(truth, scores, sens, a, b, y, i, j) <= 1.0
  {
    FlooredRateInUnit(truth, Binarize(scores, Grid(i)), sens, a, y);
    FlooredRateInUnit(truth, Binarize(scores, Grid(j)), sens, b, y);
  }

  /** Where the group has samples of the label, the floored rate is the rate
      the metric engine computes. */
  lemma FlooredRateIsDetectionRate<G>(truth: seq<int>, preds: seq<int>, sens: seq<G>, g: G, y: int)
    requires |truth| == |preds| == |sens|
    requires GroupTally(Labelled(y), truth, preds, sens, g) > 0
    ensures Ratio(GroupTally(Hit(y), truth, preds, sens, g), GroupTally(Labelled(y), truth, preds, sens, g))
            == Value(FlooredRate(truth, preds, sens, g, y))
  {
  }

  // ---------------------------------------------------------------------
  // equalized_odds_adjustment: the thresholding step

  /** The entries of `s` at the samples of group `g`: `s[sensitive_features == g]`. */
  function Select<T, G(==)>(s: seq<T>, sens: seq<G>, g: G): (r: seq<T>)
    requires |s| == |sens|
    ensures |r| == GroupSize(sens, g)
  {
    if sens == [] then []
    else (if sens[0] == g then [s[0]] else []) + Select(s[1..], sens[1..], g)
  }

  /** `np.unique(sensitive_features)` as a set. */
  function Groups<G(==)>(sens: seq<G>): set<G> {
    set i | 0 <= i < |sens| :: sens[i]
  }

  /** `adjusted[group_idx] = (y_prob[group_idx] >= best).astype(int)`: the
      samples of `group` are cut at `best`, all others keep their entry. */
  method CutGroup<G(==)>(y: array<int>, scores: seq<real>, sens: seq<G>, group: G, best: real)
    requires y.Length == |scores| == |sens|
    modifies y
    ensures forall k | 0 <= k < |sens| ::
      y[k] == if sens[k] == group then (if scores[k] >= best then 1 else 0) else old(y[k])
  {
    for i := 0 to |sens|
      invariant forall k | 0 <= k < |sens| ::
        y[k] == if k < i && sens[k] == group then (if scores[k] >= best then 1 else 0) else old(y[k])
    {
      if sens[i] == group {
        y[i] := if scores[i] >= best then 1 else 0;
      }
    }
  }

  /** Each group's samples are cut at the threshold `choose` picks from that
      group's labels and scores alone (the ROC curve and Youden's J of the
      source); every group that occurs gets a threshold. */
  method EqualizedOddsAdjustment<G(==)>(truth: seq<int>, scores: seq<real>, sens: seq<G>,
                                        choose: (seq<int>, seq<real>) -> real)
    returns (adjusted: seq<int>, thresholds: map<G, real>)
    requires |truth| == |scores| == |sens|
    ensures thresholds.Keys == Groups(sens)
    ensures forall g | g in thresholds ::
      thresholds[g] == choose(Select(truth, sens, g), Select(scores, sens, g))
    ensures |adjusted| == |truth| && IsBinary(adjusted)
    ensures forall i | 0 <= i < |sens| ::
      sens[i] in thresholds && (adjusted[i] == 1 <==> scores[i] >= thresholds[sens[i]])
  {
    var y := new int[|truth|](_ => 0);
    thresholds := map[];
    var remaining := Groups(sens);
    while remaining != {}
      invariant remaining !! thresholds.Keys && remaining + thresholds.Keys == Groups(sens)
      invariant forall g | g in thresholds ::
        thresholds[g] == choose(Select(truth, sens, g), Select(scores, sens, g))
      invariant forall k | 0 <= k < |sens| ::
        y[k] == if sens[k] in thresholds && scores[k] >= thresholds[sens[k]] then 1 else 0
      decreases remaining
    {
      var group :| group in remaining;
      var best := choose(Select(truth, sens, group), Select(scores, sens, group));
      CutGroup(y, scores, sens, group, best);
      thresholds := thresholds[group := best];
      remaining := remaining - {group};
    }
    adjusted := y[..];
    assert forall i | 0 <= i < |sens| :: sens[i] in Groups(sens);
  }
}
