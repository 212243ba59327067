# fairml core in Dafny

A verified model of the three engines of the fairml toolkit. Each engine works on parallel columns: labels, 0/1 predictions, scores, and a sensitive attribute that tags each sample with a group.

- **Metric engine** (`detection.dfy`, module `Detection`). Covers statistical parity difference, disparate impact, equal-opportunity difference, the TPR, FPR and accuracy differences, and the per-group rates behind them. A rate is a ratio of counts, computed exactly as a `real`. numpy's `nan` (a mean over an empty group, or a zero denominator) is the `Undefined` sentinel, and `np.inf` is `Infinite` (module `Outcomes`). The autosaved copy `fairml/.ipynb_checkpoints/detection-checkpoint.py` has the same bodies for SPD (lines 4-23) and EOD (lines 51-76). Its lines 26-48 hold the disparate impact body under the name `disparate_impact_ratio`. One Dafny definition models both files, so each lemma about these three metrics holds for the copy as well.
- **Mitigation engine** (`mitigation.dfy`, module `Mitigation`).
  - `reweight_samples` is an imperative method. It fills an array of ones group by group, and is proved equal to the weight vector `BalancedWeights`.
  - `resample_dataset` is a function over rows `(features, label, group)`.
  - The sampler's choices are a parameter (`Draws`): positions drawn from each group frame, plus the permutation used by the final shuffle. The precondition `DrawsFit` states what pandas' `sample` guarantees for each strategy. `Sampling` proves what follows: distinct draws give a sub-multiset, and a permutation keeps every row exactly once.
  - For `combined_resample`, only the strategy-name check is modelled.
  - The autosaved copy `fairml/.ipynb_checkpoints/mitigation-checkpoint.py` has the same bodies: `reweight_samples` at lines 4-34 and `resample_dataset` at lines 37-76. The members and lemmas below model both files.
- **Post-processing calibrator** (`postprocessing.dfy`, module `Postprocessing`). Three imperative methods:
  - `reject_option_classification` is a copy-then-update loop.
  - `threshold_optimization` is the nested 50×50 grid search. It is proved to return the first pair of grid points whose gap is smallest.
  - The thresholding step of `equalized_odds_adjustment`.

Shared counting lives in `tallies.dfy` (module `Tallies`). It holds the per-group sums that the source writes as boolean masks followed by `.sum()` or `.mean()`, and `Restrict`, which drops every sample outside the two named groups.

Behaviour that follows the code rather than the toolkit's prose description:

- `reweight_samples` with an absent group does not raise. `total / group_counts[group]` divides a Python int by a numpy integer 0, which gives `inf` with a warning, and `inf` is then assigned through an empty mask. The weights are unchanged. The model therefore has no precondition and skips the absent group.
- `resample_dataset` with `oversample` raises when exactly one of the two groups is empty: drawing with replacement from an empty frame fails. This is `Err(CannotSampleEmptyGroup)`.
- `threshold_optimization` raises for an unknown metric inside the first grid iteration, before any result exists. The model's loop does the same.
- `reject_option_classification` is idempotent only when `group_a != group_b`. With a single group, an uncertain 0 becomes 1 on the first pass and 0 on the second (`RejectOptionSameGroupFlipsBack`).
- When `p_privileged` is `nan`, `disparate_impact` returns `nan`, because `nan == 0` is false and `x / nan` is `nan`. When `p_privileged` is 0, it returns `inf` even if `p_unprivileged` is `nan`.

## Model

| member | source | states |
|---|---|---|
| Detection.PositiveRateInUnit | fairml/detection.py:20-21 | over 0/1 predictions a group's positive rate is defined exactly when the group has a sample, and then lies in [0, 1] |
| Detection.PositiveRateAmongInUnit | fairml/detection.py:70-74 | the rate among samples labelled y is nan exactly when the group has no sample labelled y, and otherwise lies in [0, 1] |
| Detection.PositiveRateAmongReadsOnlyLabel | fairml/detection.py:86-90 | the rate among label y depends only on the predictions of samples labelled y |
| Detection.ParityDifferenceRange | fairml/detection.py:20-23 | SPD is defined exactly when both groups occur, then lies in [-1, 1], and is 0 exactly when the two positive rates are equal |
| Detection.DisparateImpactSentinel | fairml/detection.py:42-48 | the result is the infinity sentinel exactly when the privileged rate is 0; it is the quotient of the rates when both are defined and the privileged one is non-zero; it is nan when the privileged rate is nan |
| Detection.DisparateImpactNonNegative | fairml/detection.py:42-48 | over 0/1 predictions a finite disparate impact is non-negative, and is exactly 1 when the two rates are equal |
| Detection.EqualOpportunityIsTruePositiveRateDifference | fairml/detection.py:51-92 | `equal_opportunity_difference` and `true_positive_rate_difference` agree on every input |
| Detection.ErrorRateDifferencesRange | fairml/detection.py:86-109 | the TPR difference is nan exactly when a group has no label-1 sample, and the FPR difference exactly when a group has no label-0 sample; otherwise each lies in [-1, 1] |
| Detection.ErrorRateDifferencesReadOnlyTheirLabel | fairml/detection.py:86-109 | changing predictions of label-0 samples leaves the TPR difference unchanged, and changing predictions of label-1 samples leaves the FPR difference unchanged |
| Detection.AccuracyDifferenceRange | fairml/detection.py:120-123 | the accuracy difference is defined exactly when both groups occur, and then lies in [-1, 1] |
| Detection.OtherGroupsIgnored | fairml/detection.py:17-123 | dropping every sample outside the two named groups changes none of the six metrics |
| Detection.SwappingGroupsNegates | fairml/detection.py:20-123 | exchanging the privileged and unprivileged groups negates SPD, EOD, and the TPR, FPR and accuracy differences |
| Detection.ParityExample | tests/.ipynb_checkpoints/test_detection-checkpoint.py:4-14 | predictions [1,0,1,0] over groups A,B,A,B with A privileged: SPD is -1 and disparate impact is 0 |
| Detection.EqualOpportunityExample | tests/.ipynb_checkpoints/test_detection-checkpoint.py:16-21 | labels [1,0,1,1] and predictions [1,0,1,0] over A,B,A,B: EOD is -1 |
| Tallies.GroupSizePositive | fairml/detection.py:20-21 | a group's count is positive exactly when the group occurs |
| Tallies.TallyWithinGroup | fairml/detection.py:120-121 | every per-group count (and the prediction sum over 0/1 predictions) lies between 0 and the group size |
| Tallies.HitsWithinLabelled | fairml/detection.py:70-74 | a rate's numerator never exceeds its denominator |
| Tallies.RestrictKeepsTallies | fairml/detection.py:20-21 | dropping samples of other groups leaves each named group's size and counts unchanged |
| Mitigation.BalancedWeights | fairml/mitigation.py:25-39 | the weight vector has one entry per sample, and samples in neither group keep 1.0 |
| Mitigation.ReweightSamples | fairml/mitigation.py:22-39 | the array filled group by group equals `BalancedWeights` |
| Mitigation.WeightConstantOnGroup | fairml/mitigation.py:28-37 | every member of a named group that occurs gets total / (size of its group) |
| Mitigation.GroupMassIsTotal | fairml/mitigation.py:28-37 | for each named group that occurs, its weights sum to the number of samples |
| Mitigation.SmallerGroupHeavier | fairml/mitigation.py:36-37 | of two named groups, each sample of the smaller group weighs strictly more than each sample of the larger one |
| Mitigation.ReweightExample | tests/test_mitigation.py:5-13 | two A and four B: A weighs 3 and B weighs 1.5 |
| Mitigation.ResampleDataset | fairml/mitigation.py:64-81 | an unknown strategy is the ValueError; oversampling with exactly one empty group is the sampler's error; otherwise the three output columns have the same length |
| Mitigation.ResampleIsBalance | fairml/mitigation.py:57-77 | on success, the output rows are the shuffled concatenation of the two group draws |
| Mitigation.ResampleKeepsRowsAligned | fairml/mitigation.py:57-81 | every output (features, label, group) triple is a whole input row of one of the two groups, and the output holds exactly the drawn rows as a multiset |
| Mitigation.ResampleGroupCounts | fairml/mitigation.py:61-75 | each named group of the output is exactly that group's draw as a multiset, and its size is the number of draws |
| Mitigation.UndersampleBalances | fairml/mitigation.py:64-67 | undersampling succeeds with min(n_priv, n_unpriv) rows of each group, and each group's output is a sub-multiset of its input rows |
| Mitigation.OversampleBalances | fairml/mitigation.py:68-71 | oversampling two non-empty (or two empty) groups succeeds with max(n_priv, n_unpriv) rows of each group, each a copy of an input row of the same group |
| Mitigation.OutputRowsFromOwnGroup | fairml/mitigation.py:61-75 | under either strategy, every output row of a named group is an input row of that group |
| Mitigation.BalanceGroups | fairml/mitigation.py:61-75 | when each group frame holds only its own group's rows, splitting the shuffled output by group gives back exactly each group's draw, as a multiset |
| Mitigation.BalanceKeepsDraws | fairml/mitigation.py:75 | the final shuffle keeps exactly the drawn rows |
| Mitigation.UndersampleExample | tests/test_mitigation.py:15-29 | two A and four B rows undersample to two of each |
| Mitigation.OversampleExample | tests/test_mitigation.py:31-46 | two A and one B rows oversample to four rows, two of each |
| Mitigation.CombinedResampleStrategy | fairml/mitigation.py:128-134 | only `smote_tomek` and `smote_enn` select a pipeline; any other name is the ValueError |
| Sampling.GatherDistinctIsSubMultiset | fairml/mitigation.py:66-67 | drawing distinct positions never yields a row more often than the frame holds it |
| Sampling.GatherPermutation | fairml/mitigation.py:75 | gathering along a permutation keeps the multiset of rows |
| Postprocessing.RejectOption | fairml/.ipynb_checkpoints/postprocessing-checkpoint.py:13-14 | the adjusted predictions have the length of the input predictions |
| Postprocessing.RejectOptionClassification | fairml/.ipynb_checkpoints/postprocessing-checkpoint.py:8-20 | the copy updated in the loop equals `RejectOption` |
| Postprocessing.RejectOptionFlipsExactly | fairml/.ipynb_checkpoints/postprocessing-checkpoint.py:14-19 | a prediction changes exactly when its score is in [low, high] and it is a group_a 0 or a group_b 1, and a change inverts it |
| Postprocessing.RejectOptionIdempotent | fairml/.ipynb_checkpoints/postprocessing-checkpoint.py:15-19 | with distinct groups, applying the rule to its own output changes nothing |
| Postprocessing.RejectOptionSameGroupFlipsBack | fairml/.ipynb_checkpoints/postprocessing-checkpoint.py:16-19 | with group_a == group_b, an uncertain 0 becomes 1 and an uncertain 1 becomes 0, so the rule is not idempotent |
| Postprocessing.RejectOptionExample | tests/.ipynb_checkpoints/test_postprocessing-checkpoint.py:9-15 | scores [0.2,0.5,0.8,0.4,0.6], predictions [0,1,1,0,1], groups A,A,B,A,B and band [0.3,0.7] give [0,1,1,1,0] |
| Postprocessing.Grid | fairml/.ipynb_checkpoints/postprocessing-checkpoint.py:47 | grid point k is the linspace point 0.01 + k·0.98/49 and lies strictly between 0 and 1 |
| Postprocessing.GridEnds | fairml/.ipynb_checkpoints/postprocessing-checkpoint.py:47 | the grid starts at 0.01, ends at 0.99 and is strictly increasing |
| Postprocessing.Binarize | fairml/.ipynb_checkpoints/postprocessing-checkpoint.py:52-53 | cutting scores at a threshold gives one 0/1 prediction per score |
| Postprocessing.MetricLabel | fairml/.ipynb_checkpoints/postprocessing-checkpoint.py:58-67 | `tpr` compares label-1 rates, `fpr` compares label-0 rates, and any other name is the ValueError |
| Postprocessing.ThresholdOptimization | fairml/.ipynb_checkpoints/postprocessing-checkpoint.py:42-73 | an unsupported metric is the ValueError; otherwise the result maps exactly the two groups to grid points in (0, 1), and the pair has the smallest gap on the grid with no earlier pair (t1 outer, t2 inner) as small |
| Postprocessing.FlooredRateInUnit | fairml/.ipynb_checkpoints/postprocessing-checkpoint.py:59-64 | with the denominator floored to 1, the rate lies in [0, 1], and is 0 for a group without samples of the label |
| Postprocessing.GapInUnit | fairml/.ipynb_checkpoints/postprocessing-checkpoint.py:58-65 | every gap on the grid lies in [0, 1] |
| Postprocessing.FlooredRateIsDetectionRate | fairml/.ipynb_checkpoints/postprocessing-checkpoint.py:59-64 | where the group has samples of the label, the floored rate equals the metric engine's rate |
| Postprocessing.CutGroup | fairml/.ipynb_checkpoints/postprocessing-checkpoint.py:37 | the samples of the group become 1 exactly when their score reaches the threshold and 0 otherwise; every other entry is unchanged |
| Postprocessing.EqualizedOddsAdjustment | fairml/.ipynb_checkpoints/postprocessing-checkpoint.py:27-39 | every observed group, and no other, gets the threshold chosen from its own labels and scores; each adjusted prediction is 0/1, and it is 1 exactly when the score is at least its group's threshold |

## Left out

- The imblearn wrappers `apply_smote`, `apply_adasyn`, `apply_hybrid_sampling`, `apply_cluster_centroids`, and the sampler run of `combined_resample` (fairml/mitigation.py:84-153). They call a library whose code is not part of this model. Only the strategy check of `combined_resample` is modelled.
- pandas' random generator (`random_state=42`). Draws and the shuffle are caller-supplied positions, constrained by `DrawsFit` to what `sample` guarantees. The concrete seeded order is not reproduced.
- `roc_curve` and the Youden-J argmax in `equalized_odds_adjustment` (postprocessing-checkpoint.py:32-35). They are a parameter `choose` that sees only the group's labels and scores. Its failure on a group with a single label class is not modelled.
- Mitigation.ResampleDataset: models the feature frame `X` as one opaque value per row. pandas index labels, column order, and the dropping of the `label`/`group` columns are not modelled.
- Mitigation.ReweightSamples: does not model the `inf` that the division by an absent group's count produces, because it is never written into the array.
- Postprocessing.EqualizedOddsAdjustment: visits the groups in an unspecified order, whereas `np.unique` visits them sorted. The groups are disjoint, so the result is the same.
- Postprocessing.ThresholdOptimization: computes the two rates with one label parameter instead of the separate `tpr`/`fpr` branches. The branches differ only in that label.
- IEEE floating point. Rates, weights, grid points and the `diff < best_diff` comparison are exact reals, with no rounding in `linspace` or in division. `float('inf')` as the initial `best_diff` is a flag meaning "no pair yet".
- Input conversion (`np.array(...)`) and numpy's shape errors. The parallel columns are required to have equal lengths, and `reject_option_classification` requires no more scores than predictions and groups, as its indexing demands.
- The visualization module, the print-only demo script and the packaging script: they produce no result to verify.
