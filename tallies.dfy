/** Per-group counting over parallel columns (labels, predictions, sensitive
    attribute): the boolean-mask filters followed by `.sum()` that every
    engine of the toolkit is built from. */
module Tallies {

  /** What one sample of the selected group adds to a tally. */
  datatype Tally =
    | PredSum               // the prediction itself: the numerator of `y_pred[mask].mean()`
    | Labelled(target: int) // 1 when `y_true == target`
    | Hit(target: int)      // 1 when `y_pred == 1` and `y_true == target`
    | Correct               // 1 when `y_true == y_pred`

  function Contribution(k: Tally, truth: int, pred: int): int {
    match k
    case PredSum => pred
    case Labelled(y) => if truth == y then 1 else 0
    case Hit(y) => if pred == 1 && truth == y then 1 else 0
    case Correct => if truth == pred then 1 else 0
  }

  /** Every entry is 0 or 1: a binary prediction or label column. */
  predicate IsBinary(s: seq<int>) {
    forall i | 0 <= i < |s| :: s[i] == 0 || s[i] == 1
  }

  /** `np.sum(sensitive_features == g)`. */
  function GroupSize<G(==)>(sens: seq<G>, g: G): (n: nat)
    ensures n <= |sens|
  {
    if sens == [] then 0
    else (if sens[0] == g then 1 else 0) + GroupSize(sens[1..], g)
  }

  /** A group is counted exactly when it occurs. */
  lemma {:induction false} GroupSizePositive<G>(sens: seq<G>, g: G)
    ensures GroupSize(sens, g) > 0 <==> g in sens
  {
    if sens != [] {
      GroupSizePositive(sens[1..], g);
      assert sens == [sens[0]] + sens[1..];
    }
  }

  /** The sum of `Contribution(k, ...)` over the samples whose attribute is `g`. */
  function GroupTally<G(==)>(k: Tally, labels: seq<int>, preds: seq<int>, sens: seq<G>, g: G): int
    requires |labels| == |preds| == |sens|
  {
    if sens == [] then 0
    else (if sens[0] == g then Contribution(k, labels[0], preds[0]) else 0)
         + GroupTally(k, labels[1..], preds[1..], sens[1..], g)
  }

  /** A tally that counts samples (every kind, and `PredSum` over binary
      predictions) lies between 0 and the size of the group. */
  lemma {:induction false} TallyWithinGroup<G>(k: Tally, labels: seq<int>, preds: seq<int>, sens: seq<G>, g: G)
    requires |labels| == |preds| == |sens|
    requires k.PredSum? ==> IsBinary(preds)
    ensures 0 <= GroupTally(k, labels, preds, sens, g) <= GroupSize(sens, g)
  {
    if sens != [] {
      assert k.PredSum? ==> preds[0] == 0 || preds[0] == 1;
      assert k.PredSum? ==> IsBinary(preds[1..]) by {
        if k.PredSum? {
          forall i | 0 <= i < |preds| - 1 ensures preds[1..][i] == 0 || preds[1..][i] == 1 {
            assert preds[1..][i] == preds[i + 1];
          }
        }
      }
      TallyWithinGroup(k, labels[1..], preds[1..], sens[1..], g);
    }
  }

  /** The hits of label `y` are a subset of the samples labelled `y`. */
  lemma {:induction false} HitsWithinLabelled<G>(y: int, labels: seq<int>, preds: seq<int>, sens: seq<G>, g: G)
    requires |labels| == |preds| == |sens|
    ensures 0 <= GroupTally(Hit(y), labels, preds, sens, g) <= GroupTally(Labelled(y), labels, preds, sens, g)
  {
    if sens != [] {
      HitsWithinLabelled(y, labels[1..], preds[1..], sens[1..], g);
    }
  }

  /** A tally restricted to label `y` reads the predictions of samples
      labelled `y` only. */
  lemma {:induction false} TallyReadsOnlyLabel<G>(k: Tally, labels: seq<int>, preds: seq<int>, preds': seq<int>, sens: seq<G>, g: G)
    requires k.Hit? || k.Labelled?
    requires |labels| == |preds| == |preds'| == |sens|
    requires forall i | 0 <= i < |sens| && labels[i] == k.target :: preds[i] == preds'[i]
    ensures GroupTally(k, labels, preds, sens, g) == GroupTally(k, labels, preds', sens, g)
  {
    if sens != [] {
      forall i | 0 <= i < |sens| - 1 && labels[1..][i] == k.target
        ensures preds[1..][i] == preds'[1..][i]
      {
        assert labels[i + 1] == k.target;
      }
      TallyReadsOnlyLabel(k, labels[1..], preds[1..], preds'[1..], sens[1..], g);
    }
  }

  /** The columns with every sample outside the two named groups dropped,
      order kept. */
  function Restrict<G(==)>(labels: seq<int>, preds: seq<int>, sens: seq<G>, p: G, u: G): (r: (seq<int>, seq<int>, seq<G>))
    requires |labels| == |preds| == |sens|
    ensures |r.0| == |r.1| == |r.2| <= |sens|
    ensures forall i | 0 <= i < |r.2| :: r.2[i] == p || r.2[i] == u
  {
    if sens == [] then ([], [], [])
    else
      var rest := Restrict(labels[1..], preds[1..], sens[1..], p, u);
      if sens[0] == p || sens[0] == u then
        ([labels[0]] + rest.0, [preds[0]] + rest.1, [sens[0]] + rest.2)
      else rest
  }

  /** Dropping the samples of other groups changes no tally of either named group. */
  lemma {:induction false} RestrictKeepsTallies<G>(k: Tally, labels: seq<int>, preds: seq<int>, sens: seq<G>, p: G, u: G, g: G)
    requires |labels| == |preds| == |sens|
    requires g == p || g == u
    ensures var r := Restrict(labels, preds, sens, p, u);
      GroupSize(r.2, g) == GroupSize(sens, g) &&
      GroupTally(k, r.0, r.1, r.2, g) == GroupTally(k, labels, preds, sens, g)
  {
    if sens != [] {
      RestrictKeepsTallies(k, labels[1..], preds[1..], sens[1..], p, u, g);
      var rest := Restrict(labels[1..], preds[1..], sens[1..], p, u);
      if sens[0] == p || sens[0] == u {
        var r := Restrict(labels, preds, sens, p, u);
        assert r.0[1..] == rest.0 && r.1[1..] == rest.1 && r.2[1..] == rest.2;
      }
    }
  }

  /** Restricting one column given twice yields the same column twice. */
  lemma {:induction false} RestrictDiagonal<G>(preds: seq<int>, sens: seq<G>, p: G, u: G)
    requires |preds| == |sens|
    ensures var r := Restrict(preds, preds, sens, p, u); r.0 == r.1
  {
    if sens != [] {
      RestrictDiagonal(preds[1..], sens[1..], p, u);
    }
  }
}
