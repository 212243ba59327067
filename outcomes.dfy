/** Values shared by the three engines: the errors the toolkit raises and the
    scalar a fairness metric evaluates to. */
module Outcomes {

  /** The ValueErrors the toolkit raises, one constructor per raise site. */
  datatype Error =
    | InvalidStrategy(strategy: string)   // resample_dataset, combined_resample
    | UnsupportedMetric(metric: string)   // threshold_optimization
    | CannotSampleEmptyGroup             // drawing with replacement from an empty group

  datatype Result<T> = Ok(value: T) | Err(error: Error)

  /** A metric value. `Infinite` stands for numpy's `inf` and `Undefined` for
      `nan` (a mean over an empty group, or 0/0). */
  datatype Metric = Value(x: real) | Infinite | Undefined {
    function Negate(): Metric {
      if Value? then Value(-x) else this
    }
  }

  /** `num / den` as numpy computes it for a count `den`: nan when `den` is 0. */
  function Ratio(num: int, den: int): Metric {
    if den == 0 then Undefined else Value(num as real / den as real)
  }

  /** Subtraction where nan propagates. */
  function Difference(a: Metric, b: Metric): Metric {
    if a.Value? && b.Value? then Value(a.x - b.x) else Undefined
  }

  lemma DifferenceAntisymmetric(a: Metric, b: Metric)
    ensures Difference(b, a) == Difference(a, b).Negate()
  {
  }

  /** A count over a non-empty population of which it counts a part is a
      defined fraction between 0 and 1. */
  lemma RatioOfPart(num: int, den: int)
    requires 0 <= num <= den && den > 0
    ensures Ratio(num, den).Value? && 0.0 <= Ratio(num, den).x <= 1.0
  {
    var q := num as real / den as real;
    assert q * den as real == num as real;
  }
}
