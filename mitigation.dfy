/** The mitigation engine: per-sample weights that give each named group the
    mass of the whole dataset, and group-balanced resampling of the aligned
    (features, label, group) rows. The autosaved copy of the module holds the
    same two operations with the same bodies. */
module Mitigation {
  import opened Outcomes
  import opened Tallies
  import opened Sampling

  // ---------------------------------------------------------------------
  // reweight_samples

  /** `total / group_counts[group]`, for a group that occurs. */
  function GroupWeight<G(==)>(total: nat, sens: seq<G>, g: G): real
    requires GroupSize(sens, g) > 0
  {
    total as real / GroupSize(sens, g) as real
  }

  /** The weight sample `i` ends with: the unprivileged group is written
      last, so it wins when the two names coincide; other samples keep 1.0. */
  function SampleWeight<G(==)>(sens: seq<G>, priv: G, unpriv: G, i: nat): real
    requires i < |sens|
  {
    GroupSizePositive(sens, sens[i]);
    if sens[i] == unpriv then GroupWeight(|sens|, sens, unpriv)
    else if sens[i] == priv then GroupWeight(|sens|, sens, priv)
    else 1.0
  }

  /** The weight vector `reweight_samples` returns: a member of either named
      group carries total / (size of its group), every other sample 1.0. */
  function BalancedWeights<G(==)>(sens: seq<G>, priv: G, unpriv: G): (w: seq<real>)
    ensures |w| == |sens|
    ensures forall i | 0 <= i < |sens| && sens[i] != priv && sens[i] != unpriv :: w[i] == 1.0
  {
    MembersCounted(sens);
    seq(|sens|, i requires 0 <= i < |sens| => SampleWeight(sens, priv, unpriv, i))
  }

  lemma MembersCounted<G>(sens: seq<G>)
    ensures forall i | 0 <= i < |sens| :: GroupSize(sens, sens[i]) > 0
  {
    forall i | 0 <= i < |sens| ensures GroupSize(sens, sens[i]) > 0 {
      GroupSizePositive(sens, sens[i]);
    }
  }

  method ReweightSamples<G(==)>(labels: seq<int>, sens: seq<G>, priv: G, unpriv: G) returns (weights: seq<real>)
    requires |labels| == |sens|
    ensures weights == BalancedWeights(sens, priv, unpriv)
  {
    var w := new real[|labels|](_ => 1.0);
    var total := |labels|;
    var groups := [priv, unpriv];
    MembersCounted(sens);
    for k := 0 to |groups|
      invariant forall j | 0 <= j < w.Length ::
        w[j] == if k == 2 && sens[j] == unpriv then GroupWeight(total, sens, unpriv)
                else if k >= 1 && sens[j] == priv then GroupWeight(total, sens, priv)
                else 1.0
    {
      var group := groups[k];
      var count := GroupSize(sens, group);
      // With no member the division yields numpy's inf, assigned through an
      // empty mask: the weights are unchanged.
      if count > 0 {
        var weight := total as real / count as real;
        ghost var before := w[..];
        for i := 0 to |sens|
          invariant forall j | 0 <= j < w.Length ::
            w[j] == if j < i && sens[j] == group then weight else before[j]
        {
          if sens[i] == group {
            w[i] := weight;
          }
        }
      }
    }
    weights := w[..];
    assert forall i | 0 <= i < |sens| :: weights[i] == SampleWeight(sens, priv, unpriv, i);
  }

  /** `sum(weights[sensitive_features == g])`. */
  function GroupWeightSum<G(==)>(w: seq<real>, sens: seq<G>, g: G): real
    requires |w| == |sens|
  {
    if sens == [] then 0.0
    else (if sens[0] == g then w[0] else 0.0) + GroupWeightSum(w[1..], sens[1..], g)
  }

  /** Members that each weigh `c` together weigh `c` times their number `k`. */
  lemma {:induction false} UniformGroupSum<G>(w: seq<real>, sens: seq<G>, g: G, c: real, k: nat)
    requires |w| == |sens| && GroupSize(sens, g) == k
    requires forall i | 0 <= i < |sens| && sens[i] == g :: w[i] == c
    ensures GroupWeightSum(w, sens, g) == c * k as real
  {
    if sens != [] {
      assert forall i | 0 <= i < |sens| - 1 && sens[1..][i] == g :: w[1..][i] == c by {
        forall i | 0 <= i < |sens| - 1 && sens[1..][i] == g ensures w[1..][i] == c {
          assert sens[i + 1] == g;
        }
      }
      if sens[0] == g {
        var k' := k - 1;
        UniformGroupSum(w[1..], sens[1..], g, c, k');
        AddOneShare(c, k', k);
      } else {
        UniformGroupSum(w[1..], sens[1..], g, c, k);
      }
    }
  }

  lemma AddOneShare(c: real, k': nat, k: nat)
    requires k == k' + 1
    ensures c + c * k' as real == c * k as real
  {
  }

  /** Each named group that occurs carries, in total, the mass of the whole
      dataset. */
  lemma GroupMassIsTotal<G>(sens: seq<G>, priv: G, unpriv: G, g: G)
    requires g == priv || g == unpriv
    requires g in sens
    ensures GroupWeightSum(BalancedWeights(sens, priv, unpriv), sens, g) == |sens| as real
  {
    GroupSizePositive(sens, g);
    WeightConstantOnGroup(sens, priv, unpriv, g);
    MassOfEqualShares(BalancedWeights(sens, priv, unpriv), sens, g);
  }

  /** Every member of a named group carries that group's weight. */
  lemma WeightConstantOnGroup<G>(sens: seq<G>, priv: G, unpriv: G, g: G)
    requires g == priv || g == unpriv
    requires GroupSize(sens, g) > 0
    ensures forall i | 0 <= i < |sens| && sens[i] == g ::
      BalancedWeights(sens, priv, unpriv)[i] == |sens| as real / GroupSize(sens, g) as real
  {
  }

  /** A group's share of the total, once per member, is the total. */
  lemma ShareTimesCount(t: real, k: nat, c: real)
    requires k > 0 && c == t / k as real
    ensures c * k as real == t
  {
  }

  /** Members that each carry total / (size of their group) add up to the total. */
  lemma MassOfEqualShares<G>(w: seq<real>, sens: seq<G>, g: G)
    requires |w| == |sens| && GroupSize(sens, g) > 0
    requires forall i | 0 <= i < |sens| && sens[i] == g :: w[i] == |sens| as real / GroupSize(sens, g) as real
    ensures GroupWeightSum(w, sens, g) == |sens| as real
  {
    var t, k := |sens| as real, GroupSize(sens, g);
    var c := t / k as real;
    UniformGroupSum(w, sens, g, c, k);
    ShareTimesCount(t, k, c);
  }

  lemma QuotientAntitone(t: real, a: real, b: real)
    requires t > 0.0 && 0.0 < a < b
    ensures t / a > t / b
  {
    assert t / a * a == t && t / b * b == t;
    assert t / b * a < t / b * b;
  }

  /** Of two named groups, the smaller one receives the strictly larger weight. */
  lemma SmallerGroupHeavier<G>(sens: seq<G>, priv: G, unpriv: G, i: nat, j: nat)
    requires i < |sens| && j < |sens|
    requires sens[i] == priv || sens[i] == unpriv
    requires sens[j] == priv || sens[j] == unpriv
    requires GroupSize(sens, sens[i]) < GroupSize(sens, sens[j])
    ensures BalancedWeights(sens, priv, unpriv)[i] > BalancedWeights(sens, priv, unpriv)[j]
  {
    var w := BalancedWeights(sens, priv, unpriv);
    GroupSizePositive(sens, sens[i]);
    WeightConstantOnGroup(sens, priv, unpriv, sens[i]);
    WeightConstantOnGroup(sens, priv, unpriv, sens[j]);
    var t, a, b := |sens| as real, GroupSize(sens, sens[i]) as real, GroupSize(sens, sens[j]) as real;
    assert w[i] == t / a && w[j] == t / b;
    QuotientAntitone(t, a, b);
  }

  /** Two samples of group A and four of group B: A weighs 3, B weighs 1.5. */
  lemma ReweightExample()
    ensures BalancedWeights(["A", "A", "B", "B", "B", "B"], "A", "B") == [3.0, 3.0, 1.5, 1.5, 1.5, 1.5]
  {
    var sens := ["A", "A", "B", "B", "B", "B"];
    assert GroupSize(sens, "A") == 2 && GroupSize(sens, "B") == 4;
  }

  // ---------------------------------------------------------------------
  // resample_dataset

  /** One row of the working frame: the feature row with the `label` and
      `group` columns appended. */
  datatype Row<X, G> = Row(features: X, y: int, group: G)

  /** `df = X.copy(); df['label'] = y; df['group'] = sensitive_features`. */
  function Frame<X, G>(xs: seq<X>, labels: seq<int>, sens: seq<G>): seq<Row<X, G>>
    requires |xs| == |labels| == |sens|
  {
    seq(|xs|, i requires 0 <= i < |xs| => Row(xs[i], labels[i], sens[i]))
  }

  /** The three aligned outputs: features, `label` values, `group` values. */
  function Columns<X, G>(rows: seq<Row<X, G>>): (seq<X>, seq<int>, seq<G>) {
    (seq(|rows|, i requires 0 <= i < |rows| => rows[i].features),
     seq(|rows|, i requires 0 <= i < |rows| => rows[i].y),
     seq(|rows|, i requires 0 <= i < |rows| => rows[i].group))
  }

  /** `df[df['group'] == g]`: the rows of group `g`, order kept. */
  function GroupRows<X, G(==)>(rows: seq<Row<X, G>>, g: G): (r: seq<Row<X, G>>)
    ensures forall x | x in r :: x.group == g && x in rows
  {
    if rows == [] then []
    else (if rows[0].group == g then [rows[0]] else []) + GroupRows(rows[1..], g)
  }

  /** The positions drawn by the sampler: `priv` and `unpriv` from the two
      group frames, `order` the final shuffle of their concatenation. */
  datatype Draws = Draws(priv: seq<nat>, unpriv: seq<nat>, order: seq<nat>)

  function Min(a: nat, b: nat): nat { if a <= b then a else b }
  function Max(a: nat, b: nat): nat { if a <= b then b else a }

  /** Drawing with replacement fails on an empty group unless nothing is drawn. */
  predicate CanOversample(nPriv: nat, nUnpriv: nat) {
    (nPriv == 0) == (nUnpriv == 0)
  }

  /** What the sampler promises for the draws of each strategy: `min` distinct
      positions per group, or `max` positions per group with repetition,
      then a permutation of the concatenation. Nothing is promised where no
      draw takes place. */
  predicate DrawsFit(strategy: string, d: Draws, nPriv: nat, nUnpriv: nat) {
    if strategy == "undersample" then
      var m := Min(nPriv, nUnpriv);
      |d.priv| == m && InRange(d.priv, nPriv) && Distinct(d.priv) &&
      |d.unpriv| == m && InRange(d.unpriv, nUnpriv) && Distinct(d.unpriv) &&
      IsPermutation(d.order, 2 * m)
    else if strategy == "oversample" && CanOversample(nPriv, nUnpriv) then
      var m := Max(nPriv, nUnpriv);
      |d.priv| == m && InRange(d.priv, nPriv) &&
      |d.unpriv| == m && InRange(d.unpriv, nUnpriv) &&
      IsPermutation(d.order, 2 * m)
    else true
  }

  /** `pd.concat([df_priv, df_unpriv]).sample(frac=1.0)` after the two draws. */
  function Balance<X, G>(dfPriv: seq<Row<X, G>>, dfUnpriv: seq<Row<X, G>>, d: Draws): seq<Row<X, G>>
    requires InRange(d.priv, |dfPriv|) && InRange(d.unpriv, |dfUnpriv|)
    requires InRange(d.order, |d.priv| + |d.unpriv|)
  {
    Gather(Gather(dfPriv, d.priv) + Gather(dfUnpriv, d.unpriv), d.order)
  }

  function ResampleDataset<X, G(==)>(xs: seq<X>, labels: seq<int>, sens: seq<G>, priv: G, unpriv: G,
                                     strategy: string, draws: Draws): (r: Result<(seq<X>, seq<int>, seq<G>)>)
    requires |xs| == |labels| == |sens|
    requires DrawsFit(strategy, draws, GroupSize(sens, priv), GroupSize(sens, unpriv))
    ensures r == Err(InvalidStrategy(strategy)) <==> strategy != "undersample" && strategy != "oversample"
    ensures r == Err(CannotSampleEmptyGroup) <==>
      strategy == "oversample" && !CanOversample(GroupSize(sens, priv), GroupSize(sens, unpriv))
    ensures r.Ok? ==> |r.value.0| == |r.value.1| == |r.value.2|
  {
    var rows := Frame(xs, labels, sens);
    var dfPriv := GroupRows(rows, priv);
    var dfUnpriv := GroupRows(rows, unpriv);
    GroupRowsSize(xs, labels, sens, priv);
    GroupRowsSize(xs, labels, sens, unpriv);
    if strategy == "undersample" then
      Ok(Columns(Balance(dfPriv, dfUnpriv, draws)))
    else if strategy == "oversample" then
      if CanOversample(|dfPriv|, |dfUnpriv|) then Ok(Columns(Balance(dfPriv, dfUnpriv, draws)))
      else Err(CannotSampleEmptyGroup)
    else Err(InvalidStrategy(strategy))
  }

  // ---------------------------------------------------------------------
  // Lemmas about the frames

  lemma {:induction false} GroupRowsSize<X, G>(xs: seq<X>, labels: seq<int>, sens: seq<G>, g: G)
    requires |xs| == |labels| == |sens|
    ensures |GroupRows(Frame(xs, labels, sens), g)| == GroupSize(sens, g)
  {
    if sens != [] {
      assert Frame(xs, labels, sens)[1..] == Frame(xs[1..], labels[1..], sens[1..]);
      GroupRowsSize(xs[1..], labels[1..], sens[1..], g);
    }
  }

  /** Filtering by group keeps each row of that group as often as it occurs. */
  lemma {:induction false} GroupRowsMultiset<X, G>(rows: seq<Row<X, G>>, g: G, x: Row<X, G>)
    ensures multiset(GroupRows(rows, g))[x] == if x.group == g then multiset(rows)[x] else 0
  {
    if rows != [] {
      GroupRowsMultiset(rows[1..], g, x);
      assert rows == [rows[0]] + rows[1..];
    }
  }

  /** Rows that are a reordering of each other have reordered group frames. */
  lemma SameRowsSameGroups<X, G>(a: seq<Row<X, G>>, b: seq<Row<X, G>>, g: G)
    requires multiset(a) == multiset(b)
    ensures multiset(GroupRows(a, g)) == multiset(GroupRows(b, g))
    ensures |GroupRows(a, g)| == |GroupRows(b, g)|
  {
    var ma, mb := multiset(GroupRows(a, g)), multiset(GroupRows(b, g));
    forall x ensures ma[x] == mb[x] {
      GroupRowsMultiset(a, g, x);
      GroupRowsMultiset(b, g, x);
      assert multiset(a)[x] == multiset(b)[x];
    }
    MultisetExtensional(ma, mb);
    assert |multiset(GroupRows(a, g))| == |GroupRows(a, g)|;
  }

  lemma MultisetExtensional<T>(m: multiset<T>, m': multiset<T>)
    requires forall x :: m[x] == m'[x]
    ensures m == m'
  {
  }

  lemma {:induction false} GroupRowsConcat<X, G>(a: seq<Row<X, G>>, b: seq<Row<X, G>>, g: G)
    ensures GroupRows(a + b, g) == GroupRows(a, g) + GroupRows(b, g)
  {
    if a == [] {
      assert a + b == b;
    } else {
      assert (a + b)[0] == a[0];
      assert (a + b)[1..] == a[1..] + b;
      GroupRowsConcat(a[1..], b, g);
    }
  }

  /** Filtering rows that all belong to one group keeps all of them for that
      group and none for any other. */
  lemma {:induction false} GroupRowsOfOneGroup<X, G>(a: seq<Row<X, G>>, h: G, g: G)
    requires forall x | x in a :: x.group == h
    ensures GroupRows(a, g) == if g == h then a else []
  {
    if a != [] {
      assert a[0] in a;
      assert forall x | x in a[1..] :: x in a;
      GroupRowsOfOneGroup(a[1..], h, g);
      assert a == [a[0]] + a[1..];
    }
  }

  lemma FrameOfColumns<X, G>(rows: seq<Row<X, G>>)
    ensures var c := Columns(rows); |c.0| == |c.1| == |c.2| && Frame(c.0, c.1, c.2) == rows
  {
  }

  // ---------------------------------------------------------------------
  // Lemmas about resample_dataset

  /** Shuffling the concatenated draws keeps exactly the drawn rows. */
  lemma BalanceKeepsDraws<X, G>(dfPriv: seq<Row<X, G>>, dfUnpriv: seq<Row<X, G>>, d: Draws)
    requires InRange(d.priv, |dfPriv|) && InRange(d.unpriv, |dfUnpriv|)
    requires IsPermutation(d.order, |d.priv| + |d.unpriv|)
    ensures var picked := Gather(dfPriv, d.priv) + Gather(dfUnpriv, d.unpriv);
      multiset(Balance(dfPriv, dfUnpriv, d)) == multiset(picked) &&
      forall x | x in Balance(dfPriv, dfUnpriv, d) :: x in dfPriv || x in dfUnpriv
  {
    var a, b := Gather(dfPriv, d.priv), Gather(dfUnpriv, d.unpriv);
    GatherPermutation(a + b, d.order);
    SameElements(Balance(dfPriv, dfUnpriv, d), a + b);
    GatherFrom(dfPriv, d.priv);
    GatherFrom(dfUnpriv, d.unpriv);
  }

  /** Rows drawn from a frame of one group belong to that group. */
  lemma GatherFromGroup<X, G>(df: seq<Row<X, G>>, idx: seq<nat>, g: G)
    requires InRange(idx, |df|)
    requires forall x | x in df :: x.group == g
    ensures forall x | x in Gather(df, idx) :: x.group == g && x in df
  {
    forall x | x in Gather(df, idx) ensures x.group == g && x in df {
      var k :| 0 <= k < |idx| && Gather(df, idx)[k] == x;
    }
  }

  /** Split by group, the shuffled draws give back each group's draw. */
  lemma BalanceGroups<X, G>(dfPriv: seq<Row<X, G>>, dfUnpriv: seq<Row<X, G>>, d: Draws, priv: G, unpriv: G)
    requires priv != unpriv
    requires InRange(d.priv, |dfPriv|) && InRange(d.unpriv, |dfUnpriv|)
    requires IsPermutation(d.order, |d.priv| + |d.unpriv|)
    requires forall x | x in dfPriv :: x.group == priv
    requires forall x | x in dfUnpriv :: x.group == unpriv
    ensures multiset(GroupRows(Balance(dfPriv, dfUnpriv, d), priv)) == multiset(Gather(dfPriv, d.priv))
    ensures multiset(GroupRows(Balance(dfPriv, dfUnpriv, d), unpriv)) == multiset(Gather(dfUnpriv, d.unpriv))
  {
    var a, b := Gather(dfPriv, d.priv), Gather(dfUnpriv, d.unpriv);
    GatherFromGroup(dfPriv, d.priv, priv);
    GatherFromGroup(dfUnpriv, d.unpriv, unpriv);
    BalanceKeepsDraws(dfPriv, dfUnpriv, d);
    GroupRowsConcat(a, b, priv);
    GroupRowsConcat(a, b, unpriv);
    GroupRowsOfOneGroup(a, priv, priv);
    GroupRowsOfOneGroup(a, priv, unpriv);
    GroupRowsOfOneGroup(b, unpriv, priv);
    GroupRowsOfOneGroup(b, unpriv, unpriv);
    SameRowsSameGroups(Balance(dfPriv, dfUnpriv, d), a + b, priv);
    SameRowsSameGroups(Balance(dfPriv, dfUnpriv, d), a + b, unpriv);
  }

  /** A row of a group's output occurs in that group's frame. */
  lemma DrawnRowsFromFrame<X, G>(out: seq<Row<X, G>>, df: seq<Row<X, G>>, idx: seq<nat>)
    requires InRange(idx, |df|)
    requires multiset(out) == multiset(Gather(df, idx))
    ensures forall x | x in out :: x in df
  {
    forall x | x in out ensures x in df {
      assert x in multiset(out);
      var k :| 0 <= k < |idx| && Gather(df, idx)[k] == x;
    }
  }

  /** On success the output columns are those of the balanced frame, and the
      draws index the two group frames. */
  lemma ResampleIsBalance<X, G>(xs: seq<X>, labels: seq<int>, sens: seq<G>, priv: G, unpriv: G,
                                strategy: string, draws: Draws)
    requires |xs| == |labels| == |sens|
    requires DrawsFit(strategy, draws, GroupSize(sens, priv), GroupSize(sens, unpriv))
    ensures var r := ResampleDataset(xs, labels, sens, priv, unpriv, strategy, draws);
      r.Ok? ==>
        var rows := Frame(xs, labels, sens);
        var dfPriv, dfUnpriv := GroupRows(rows, priv), GroupRows(rows, unpriv);
        InRange(draws.priv, |dfPriv|) && InRange(draws.unpriv, |dfUnpriv|) &&
        IsPermutation(draws.order, |draws.priv| + |draws.unpriv|) &&
        Frame(r.value.0, r.value.1, r.value.2) == Balance(dfPriv, dfUnpriv, draws)
  {
    var r := ResampleDataset(xs, labels, sens, priv, unpriv, strategy, draws);
    if r.Ok? {
      var rows := Frame(xs, labels, sens);
      GroupRowsSize(xs, labels, sens, priv);
      GroupRowsSize(xs, labels, sens, unpriv);
      FrameOfColumns(Balance(GroupRows(rows, priv), GroupRows(rows, unpriv), draws));
    }
  }

  /** A successful resample returns whole input rows of the two named groups,
      kept aligned: the output rows are, up to the shuffle's order, exactly
      the rows the two group draws picked. */
  lemma ResampleKeepsRowsAligned<X, G>(xs: seq<X>, labels: seq<int>, sens: seq<G>, priv: G, unpriv: G,
                                       strategy: string, draws: Draws)
    requires |xs| == |labels| == |sens|
    requires DrawsFit(strategy, draws, GroupSize(sens, priv), GroupSize(sens, unpriv))
    ensures var r := ResampleDataset(xs, labels, sens, priv, unpriv, strategy, draws);
      r.Ok? ==>
        var rows := Frame(xs, labels, sens);
        var out := Frame(r.value.0, r.value.1, r.value.2);
        var dfPriv, dfUnpriv := GroupRows(rows, priv), GroupRows(rows, unpriv);
        InRange(draws.priv, |dfPriv|) && InRange(draws.unpriv, |dfUnpriv|) &&
        multiset(out) == multiset(Gather(dfPriv, draws.priv) + Gather(dfUnpriv, draws.unpriv)) &&
        forall k | 0 <= k < |out| :: out[k] in rows && (out[k].group == priv || out[k].group == unpriv)
  {
    var r := ResampleDataset(xs, labels, sens, priv, unpriv, strategy, draws);
    if r.Ok? {
      ResampleIsBalance(xs, labels, sens, priv, unpriv, strategy, draws);
      var rows := Frame(xs, labels, sens);
      var dfPriv, dfUnpriv := GroupRows(rows, priv), GroupRows(rows, unpriv);
      var out := Frame(r.value.0, r.value.1, r.value.2);
      BalanceKeepsDraws(dfPriv, dfUnpriv, draws);
      forall k | 0 <= k < |out| ensures out[k] in rows && (out[k].group == priv || out[k].group == unpriv) {
        assert out[k] in Balance(dfPriv, dfUnpriv, draws);
      }
    }
  }

  /** Each named group of the output holds exactly as many rows as the
      group draw picked, and those rows are the picked ones. */
  lemma ResampleGroupCounts<X, G>(xs: seq<X>, labels: seq<int>, sens: seq<G>, priv: G, unpriv: G,
                                  strategy: string, draws: Draws)
    requires |xs| == |labels| == |sens|
    requires DrawsFit(strategy, draws, GroupSize(sens, priv), GroupSize(sens, unpriv))
    requires priv != unpriv
    ensures var r := ResampleDataset(xs, labels, sens, priv, unpriv, strategy, draws);
      r.Ok? ==>
        var rows := Frame(xs, labels, sens);
        var out := Frame(r.value.0, r.value.1, r.value.2);
        var dfPriv, dfUnpriv := GroupRows(rows, priv), GroupRows(rows, unpriv);
        InRange(draws.priv, |dfPriv|) && InRange(draws.unpriv, |dfUnpriv|) &&
        multiset(GroupRows(out, priv)) == multiset(Gather(dfPriv, draws.priv)) &&
        multiset(GroupRows(out, unpriv)) == multiset(Gather(dfUnpriv, draws.unpriv)) &&
        GroupSize(r.value.2, priv) == |draws.priv| && GroupSize(r.value.2, unpriv) == |draws.unpriv|
  {
    var r := ResampleDataset(xs, labels, sens, priv, unpriv, strategy, draws);
    if r.Ok? {
      ResampleIsBalance(xs, labels, sens, priv, unpriv, strategy, draws);
      var rows := Frame(xs, labels, sens);
      var out := Frame(r.value.0, r.value.1, r.value.2);
      var dfPriv, dfUnpriv := GroupRows(rows, priv), GroupRows(rows, unpriv);
      BalanceGroups(dfPriv, dfUnpriv, draws, priv, unpriv);
      assert |multiset(GroupRows(out, priv))| == |GroupRows(out, priv)|;
      assert |multiset(GroupRows(out, unpriv))| == |GroupRows(out, unpriv)|;
      GroupRowsSize(r.value.0, r.value.1, r.value.2, priv);
      GroupRowsSize(r.value.0, r.value.1, r.value.2, unpriv);
    }
  }

  /** Undersampling succeeds, keeps min(n_priv, n_unpriv) rows of each group,
      and draws them without replacement: each group's output is a
      sub-multiset of that group's input rows. */
  lemma UndersampleBalances<X, G>(xs: seq<X>, labels: seq<int>, sens: seq<G>, priv: G, unpriv: G, draws: Draws)
    requires |xs| == |labels| == |sens|
    requires DrawsFit("undersample", draws, GroupSize(sens, priv), GroupSize(sens, unpriv))
    requires priv != unpriv
    ensures var r := ResampleDataset(xs, labels, sens, priv, unpriv, "undersample", draws);
      var m := Min(GroupSize(sens, priv), GroupSize(sens, unpriv));
      var rows := Frame(xs, labels, sens);
      r.Ok? && |r.value.2| == 2 * m &&
      GroupSize(r.value.2, priv) == m && GroupSize(r.value.2, unpriv) == m &&
      multiset(GroupRows(Frame(r.value.0, r.value.1, r.value.2), priv)) <= multiset(GroupRows(rows, priv)) &&
      multiset(GroupRows(Frame(r.value.0, r.value.1, r.value.2), unpriv)) <= multiset(GroupRows(rows, unpriv))
  {
    ResampleGroupCounts(xs, labels, sens, priv, unpriv, "undersample", draws);
    var rows := Frame(xs, labels, sens);
    var dfPriv, dfUnpriv := GroupRows(rows, priv), GroupRows(rows, unpriv);
    GatherDistinctIsSubMultiset(dfPriv, draws.priv);
    GatherDistinctIsSubMultiset(dfUnpriv, draws.unpriv);
  }

  /** Every output row of a named group is a row of that group in the input. */
  lemma OutputRowsFromOwnGroup<X, G>(xs: seq<X>, labels: seq<int>, sens: seq<G>, priv: G, unpriv: G,
                                     strategy: string, draws: Draws)
    requires |xs| == |labels| == |sens|
    requires DrawsFit(strategy, draws, GroupSize(sens, priv), GroupSize(sens, unpriv))
    requires priv != unpriv
    ensures var r := ResampleDataset(xs, labels, sens, priv, unpriv, strategy, draws);
      r.Ok? ==>
        var rows := Frame(xs, labels, sens);
        var out := Frame(r.value.0, r.value.1, r.value.2);
        (forall x | x in GroupRows(out, priv) :: x in GroupRows(rows, priv)) &&
        (forall x | x in GroupRows(out, unpriv) :: x in GroupRows(rows, unpriv))
  {
    var r := ResampleDataset(xs, labels, sens, priv, unpriv, strategy, draws);
    if r.Ok? {
      ResampleIsBalance(xs, labels, sens, priv, unpriv, strategy, draws);
      var rows := Frame(xs, labels, sens);
      var out := Frame(r.value.0, r.value.1, r.value.2);
      var dfPriv, dfUnpriv := GroupRows(rows, priv), GroupRows(rows, unpriv);
      BalanceGroups(dfPriv, dfUnpriv, draws, priv, unpriv);
      DrawnRowsFromFrame(GroupRows(out, priv), dfPriv, draws.priv);
      DrawnRowsFromFrame(GroupRows(out, unpriv), dfUnpriv, draws.unpriv);
    }
  }

  /** Oversampling two present groups succeeds, yields max(n_priv, n_unpriv)
      rows of each group, and every output row is a copy of an input row of
      its own group. */
  lemma OversampleBalances<X, G>(xs: seq<X>, labels: seq<int>, sens: seq<G>, priv: G, unpriv: G, draws: Draws)
    requires |xs| == |labels| == |sens|
    requires DrawsFit("oversample", draws, GroupSize(sens, priv), GroupSize(sens, unpriv))
    requires priv != unpriv
    requires CanOversample(GroupSize(sens, priv), GroupSize(sens, unpriv))
    ensures var r := ResampleDataset(xs, labels, sens, priv, unpriv, "oversample", draws);
      var m := Max(GroupSize(sens, priv), GroupSize(sens, unpriv));
      var rows := Frame(xs, labels, sens);
      var out := Frame(r.value.0, r.value.1, r.value.2);
      r.Ok? && |r.value.2| == 2 * m &&
      GroupSize(r.value.2, priv) == m && GroupSize(r.value.2, unpriv) == m &&
      (forall x | x in GroupRows(out, priv) :: x in GroupRows(rows, priv)) &&
      (forall x | x in GroupRows(out, unpriv) :: x in GroupRows(rows, unpriv))
  {
    ResampleGroupCounts(xs, labels, sens, priv, unpriv, "oversample", draws);
    OutputRowsFromOwnGroup(xs, labels, sens, priv, unpriv, "oversample", draws);
  }

  /** Six rows, two of group A and four of group B: undersampling keeps two
      rows of each group, whatever positions the sampler draws. */
  lemma UndersampleExample(draws: Draws)
    requires DrawsFit("undersample", draws, 2, 4)
    ensures var r := ResampleDataset([1, 2, 3, 4, 5, 6], [1, 0, 1, 0, 1, 0], ["A", "A", "B", "B", "B", "B"],
                                     "A", "B", "undersample", draws);
      r.Ok? && GroupSize(r.value.2, "A") == 2 && GroupSize(r.value.2, "B") == 2
  {
    var sens := ["A", "A", "B", "B", "B", "B"];
    assert GroupSize(sens, "A") == 2 && GroupSize(sens, "B") == 4;
    UndersampleBalances([1, 2, 3, 4, 5, 6], [1, 0, 1, 0, 1, 0], sens, "A", "B", draws);
  }

  /** Features [1, 2, 3], labels [1, 0, 1], groups A, A, B: oversampling
      yields four rows, two of each group, whatever positions the sampler
      draws. */
  lemma OversampleExample(draws: Draws)
    requires DrawsFit("oversample", draws, 2, 1)
    ensures var r := ResampleDataset([1, 2, 3], [1, 0, 1], ["A", "A", "B"], "A", "B", "oversample", draws);
      r.Ok? && |r.value.0| == 4 && GroupSize(r.value.2, "A") == 2 && GroupSize(r.value.2, "B") == 2
  {
    var sens := ["A", "A", "B"];
    assert GroupSize(sens, "A") == 2 && GroupSize(sens, "B") == 1;
    OversampleBalances([1, 2, 3], [1, 0, 1], sens, "A", "B", draws);
  }

  // ---------------------------------------------------------------------
  // combined_resample: only its strategy check is modelled

  /** The two pipelines `combined_resample` accepts. */
  datatype CombinedSampler = SmoteTomek | SmoteEnn

  function CombinedResampleStrategy(strategy: string): (r: Result<CombinedSampler>)
    ensures r.Ok? <==> strategy == "smote_tomek" || strategy == "smote_enn"
    ensures r.Err? ==> r.error == InvalidStrategy(strategy)
    ensures r == Ok(SmoteTomek) <==> strategy == "smote_tomek"
  {
    if strategy == "smote_tomek" then Ok(SmoteTomek)
    else if strategy == "smote_enn" then Ok(SmoteEnn)
    else Err(InvalidStrategy(strategy))
  }
}
