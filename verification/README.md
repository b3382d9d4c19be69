# Kenchi outlier detectors in Dafny

This project models the detector core of Kenchi, a Python library of outlier
detectors built on scikit-learn. The model covers:

- the shared detector contract of `DetectorMixin`: a detector is unfitted until
  `fit`, `fit` caches the in-sample scores `y_score_` and a scalar
  `threshold_`, `predict` labels a sample 1 exactly when its score is strictly
  above the threshold, and `fit_predict` is `fit` followed by `predict`;
- the eager hyperparameter validation (`check_params`) of all five detectors;
- FastABOD, the fast angle-based outlier factor: the population variance of
  `(pa.pb)/(pa.pa)/(pb.pb)` over every unordered pair of a point's
  neighbour-difference vectors. It is computed over contiguous row slices
  whose results are concatenated and negated. It traps the 0/0 that a zero
  difference vector causes;
- the kernel-density, Gaussian (graphical lasso), Gaussian-mixture and
  von Mises–Fisher detectors: their lifecycles, the cached-versus-fresh split
  of `anomaly_score`, and their thresholds. The model also covers the
  von Mises–Fisher score `1 - x . mean_direction` and the feature-wise score
  matrix of the Gaussian detector.

Scores are exact `real`s. What the scikit-learn estimators, SciPy and
`np.percentile` compute is passed in as an argument:

- the neighbour index's lists;
- the row slices joblib produces;
- the `score_samples` of the kernel density estimate and of the mixture;
- the precision matrix and location of the graphical lasso;
- the set of metrics the kernel density estimate's trees accept, and the set
  the neighbour index accepts;
- the row normaliser and the `m / norm(m)` scaling;
- `np.percentile`;
- `chi2.fit` followed by `chi2.ppf`;
- `0.5 * log(2 pi / .)`.

The model defines the rest itself, over exact reals:

- dot products, the vector–matrix product `@` and element-wise differences;
- `combinations(·, 2)` and the ddof-0 `np.var` of FastABOD;
- the column mean of the von Mises–Fisher fit;
- the Mahalanobis form `(x - location) @ precision . (x - location)`;
- the feature-wise score formula, with numpy's broadcasting of a one-column
  query;
- the sample minimums that the graphical lasso and the mixture enforce in
  their own `fit`.

Errors are values (`Base.Error` inside `Base.Result`), and every detector is an
immutable `Detector(params, state)` whose state is `Unfitted` or
`Fitted(model, yScore, threshold)`.

Modules:

- `Base` (base.dfy): errors, the lifecycle state, `check_array` as a shape
  check, and the decision rule of `predict`.
- `Vectors` (vectors.dfy): the real arithmetic the scores use.
- `AngleBased` (abod.dfy): FastABOD.
- `KernelDensity` (nonparametric.dfy): the kernel-density detector.
- `Gaussian`, `GaussianMixture` and `VonMisesFisher` (parametric.dfy): the
  three parametric detectors.

The model follows the code in these places:

- A lower false-positive rate reads the threshold at a higher percentile rank.
  It therefore flags fewer training samples, not more
  (`KernelDensity.LowerFprFlagsFewer`, `Gaussian.LowerFprRaisesThresholds`).
- FastABOD's `anomaly_score()` with no argument recomputes the in-sample scores
  instead of returning the cached `y_score_`.
  `AngleBased.RescoringTrainingSetIsStable` shows that the result is the same.
- The von Mises–Fisher `fit` normalises its input and then scores it through
  `anomaly_score`, which normalises it a second time. The model keeps both
  normalisations.
- `fit` is not all-or-nothing in the source: the von Mises–Fisher `fit` sets
  `mean_direction_` before it fails. In the model a failing `Fit` returns an
  error, and the caller keeps its previous detector.

## Model

| member | source | states |
|---|---|---|
| `Base.DecideAt` | kenchi/base.py:48 | label i of the decision vector is 1 when score i is strictly above the threshold and 0 otherwise |
| `Base.DecideSpec` | kenchi/base.py:40-48 | every label is 1 exactly when its score is above the threshold and 0 exactly when it is at or below it, so every label is binary |
| `Base.DecideTieIsInlier` | kenchi/base.py:48 | a score equal to the threshold is labelled an inlier (0) |
| `Base.DecideMonotone` | kenchi/base.py:48 | raising the threshold never turns a 0 label into a 1 |
| `Base.DecideAboveAll` | kenchi/base.py:48 | a threshold at or above every score labels every sample 0 |
| `Base.PredictFrom` | kenchi/base.py:32-48 | predict fails not-fitted without a threshold, passes on scoring errors, succeeds whenever the detector is fitted and scoring succeeds, and then returns one label per score, 1 exactly above the threshold |
| `Vectors.DotSelfZero` | kenchi/outlier_detection/angle_based/abod.py:20 | the denominator `pa @ pa` is zero exactly when pa is the zero vector |
| `Vectors.UnitDotBounded` | kenchi/outlier_detection/statistical/parametric.py:431 | the inner product of two unit vectors lies in [-1, 1] |
| `Vectors.VarianceNonneg` | kenchi/outlier_detection/angle_based/abod.py:19 | np.var with ddof 0 is never negative |
| `AngleBased.CheckParams` | kenchi/outlier_detection/angle_based/abod.py:77-99 | passes exactly when fpr is in [0, 1], n_neighbors > 1 and p >= 1; otherwise it names the first failing parameter in source order |
| `AngleBased.New` | kenchi/outlier_detection/angle_based/abod.py:62-75 | a detector exists only for parameters that pass check_params, and it starts unfitted |
| `AngleBased.Pairs` | kenchi/outlier_detection/angle_based/abod.py:20-21 | k difference vectors give k(k-1)/2 pairs |
| `AngleBased.PairIndex` | kenchi/outlier_detection/angle_based/abod.py:20-21 | the pair (D[i], D[j]) with i < j sits at position i(2n - i - 1)/2 + (j - i - 1) of the pairs of n difference vectors, the lexicographic order of `combinations`, so each pair of positions occurs once |
| `AngleBased.PairOrigin` | kenchi/outlier_detection/angle_based/abod.py:20-21 | every pair is some (D[i], D[j]) with i < j |
| `AngleBased.Term` | kenchi/outlier_detection/angle_based/abod.py:18-20 | one pair's term traps exactly when one of its two vectors is zero |
| `AngleBased.ZeroDenominatorIsInvalid` | kenchi/outlier_detection/angle_based/abod.py:18-20 | a zero denominator always meets a zero numerator, so the trap is numpy's invalid-operation (0/0) one that the errstate raises on |
| `AngleBased.TermsFail` | kenchi/outlier_detection/angle_based/abod.py:19-22 | the list of terms fails exactly when some pair's term traps |
| `AngleBased.RowFactor` | kenchi/outlier_detection/angle_based/abod.py:19-22 | a point's factor, when defined, is a non-negative variance, and its only error is the 0/0 trap |
| `AngleBased.RowFactorFails` | kenchi/outlier_detection/angle_based/abod.py:18-22 | a point's factor fails exactly when one of its difference vectors is zero |
| `AngleBased.SubZero` | kenchi/outlier_detection/angle_based/abod.py:21 | a difference vector is zero exactly when the neighbour equals the query point |
| `AngleBased.Abof` | kenchi/outlier_detection/angle_based/abod.py:15-23 | `_abof` yields one non-negative factor per row, and value i is the np.var of row i's pair terms (its `RowFactor`) |
| `AngleBased.RowOverlaps` | kenchi/outlier_detection/angle_based/abod.py:18-23 | a row's factor fails exactly when the row coincides with one of its listed neighbours |
| `AngleBased.AbofFails` | kenchi/outlier_detection/angle_based/abod.py:15-23 | `_abof` fails exactly when some row coincides with one of its listed neighbours |
| `AngleBased.AbofAppend` | kenchi/outlier_detection/angle_based/abod.py:19-23 | `_abof` on two consecutive blocks, concatenated, equals `_abof` on their union |
| `AngleBased.ScoreSlicesSpan` | kenchi/outlier_detection/angle_based/abod.py:159-164 | scoring the slices between any increasing boundaries and concatenating equals `_abof` on the whole span |
| `AngleBased.ScoreSlicesAgree` | kenchi/outlier_detection/angle_based/abod.py:157-168 | for any partition into contiguous in-order slices, the concatenation equals `_abof` on all rows at once |
| `AngleBased.Score` | kenchi/outlier_detection/angle_based/abod.py:150-168 | a successful score vector is the negated `_abof` of the query rows (the training rows for no argument), each entry at most 0; a badly shaped query is invalid input; too few stored samples fail; n_jobs = 0 is an invalid parameter, as joblib's `Parallel` refuses it; on an answerable query the only error is "X must not contain training samples" |
| `AngleBased.AnomalyScore` | kenchi/outlier_detection/angle_based/abod.py:134-168 | not-fitted before fit; otherwise the result, when it succeeds, is `-_abof` of the query rows (the training rows for no argument), one non-positive score per row |
| `AngleBased.AnomalyScoreFails` | kenchi/outlier_detection/angle_based/abod.py:159-166 | on an answerable query, scoring fails exactly when a query row coincides with one of its neighbours, and the error is the training-samples one |
| `AngleBased.AnomalyScoreIgnoresSlicing` | kenchi/outlier_detection/angle_based/abod.py:159-168 | the scores do not depend on how the rows were sliced among jobs |
| `AngleBased.Fit` | kenchi/outlier_detection/angle_based/abod.py:102-131 | corrected for n_jobs: a badly shaped X is invalid input; a metric the neighbour index does not accept is an invalid parameter; n_neighbors >= n_samples fails; n_jobs = 0 is an invalid parameter; a successful fit had an accepted metric and n_jobs != 0, and its fitted state stores X, one non-positive score per training row, and the threshold at percentile rank 100 (1 - fpr) of those scores |
| `AngleBased.FitFails` | kenchi/outlier_detection/angle_based/abod.py:116-166 | on a well-shaped X with more samples than n_neighbors, fit fails exactly when the metric is refused, n_jobs = 0, or a training point coincides with one of its own neighbours; with an accepted metric and n_jobs != 0 the error is "X must not contain training samples" |
| `AngleBased.ScoreAsWritten` | kenchi/outlier_detection/angle_based/abod.py:158-164 | as written: for n_jobs >= 1 it is the corrected score; for n_jobs < 1 every call fails, and on an accepted query the error is the invalid n_jobs that `gen_even_slices` raises |
| `AngleBased.AllCoresRejectedAsWritten` | kenchi/outlier_detection/angle_based/abod.py:40-42 | with the documented n_jobs = -1 and an accepted query, anomaly_score as written fails on n_jobs, while the corrected score succeeds exactly when no query row coincides with one of its neighbours |
| `AngleBased.FitAsWritten` | kenchi/outlier_detection/angle_based/abod.py:102-131 | as written: for n_jobs >= 1 it is the corrected fit; for n_jobs < 1 every fit fails |
| `AngleBased.FitAsWrittenRejectsAllCores` | kenchi/outlier_detection/angle_based/abod.py:126-163 | with n_jobs = -1, a well-shaped X, an accepted metric and neighbours that never coincide with their query row, the corrected fit succeeds and the fit as written fails on n_jobs |
| `AngleBased.RescoringTrainingSetIsStable` | kenchi/outlier_detection/angle_based/abod.py:126-152 | after a successful fit, anomaly_score with no argument reproduces the cached y_score_ |
| `AngleBased.Predict` | kenchi/base.py:32-48 | not-fitted before fit; a scoring error is passed on; succeeds whenever the detector is fitted and its FastABOD score succeeds, with one label per query row, 1 exactly when its FastABOD score is above the threshold and 0 exactly when it is at or below it |
| `AngleBased.FitPredict` | kenchi/base.py:50-65 | fit_predict as written: a fit error is passed on; otherwise one label per training row |
| `AngleBased.FitPredictRejectsTrainingSet` | kenchi/outlier_detection/angle_based/abod.py:153-166 | once the index lists a training point among its own neighbours (as it does for an explicit X), fit_predict as written always fails, and after a successful fit the error is "X must not contain training samples" |
| `AngleBased.FitPredictInSample` | kenchi/base.py:65 | fit_predict through the in-sample path succeeds exactly when fit does, and labels the cached scores against the threshold |
| `KernelDensity.CheckParams` | kenchi/outlier_detection/statistical/nonparametric.py:53-71 | passes exactly when bandwidth > 0, fpr is in [0, 1] and the kernel is one of the listed ones; otherwise it names the first failing parameter |
| `KernelDensity.KernelChoice` | kenchi/outlier_detection/statistical/nonparametric.py:9-11 | with the numeric checks passed, exactly the six named kernels are accepted |
| `KernelDensity.New` | kenchi/outlier_detection/statistical/nonparametric.py:40-51 | a detector exists only for valid parameters and starts unfitted |
| `KernelDensity.FreshScore` | kenchi/outlier_detection/statistical/nonparametric.py:124-126 | a well-shaped query of the fitted width gets one score per row, the negation of its log-density; anything else is invalid input |
| `KernelDensity.AnomalyScore` | kenchi/outlier_detection/statistical/nonparametric.py:105-126 | not-fitted before fit, the cached y_score_ unchanged for no argument, fresh scores for explicit samples |
| `KernelDensity.Fit` | kenchi/outlier_detection/statistical/nonparametric.py:74-102 | fit succeeds exactly on a well-shaped X with a metric the estimator accepts (a bad shape is invalid input, then an unknown metric is an invalid parameter); y_score_ is the negated log-density of each training row; the threshold is the percentile at rank 100 (1 - fpr) of y_score_ |
| `KernelDensity.CachedScoresAreFresh` | kenchi/outlier_detection/statistical/nonparametric.py:119-126 | after fit, the cached scores equal fresh scores of the training set |
| `KernelDensity.Predict` | kenchi/base.py:32-48 | not-fitted before fit; a scoring error is passed on; succeeds whenever the detector is fitted and anomaly_score succeeds, with one label per score, 1 exactly above the threshold |
| `KernelDensity.FitPredictLabelsTrainingSet` | kenchi/base.py:50-65 | fit_predict succeeds exactly when fit does, passes on fit's error, and equals the decision rule over the cached scores and threshold |
| `KernelDensity.LowerFprFlagsFewer` | kenchi/outlier_detection/statistical/nonparametric.py:97-100 | of two detectors fitted on the same data that differ only in fpr, the one with the lower fpr (for a percentile that grows with its rank) flags no training sample the other does not |
| `KernelDensity.ZeroFprFlagsNothing` | kenchi/outlier_detection/statistical/nonparametric.py:98-100 | with fpr = 0 and a percentile that is the maximum at rank 100, fit_predict flags no training sample |
| `Gaussian.CheckParams` | kenchi/outlier_detection/statistical/parametric.py:64-91 | passes exactly when alpha and fpr are in [0, 1], max_iter > 0 and tol >= 0; otherwise it names the first failing parameter in source order |
| `Gaussian.New` | kenchi/outlier_detection/statistical/parametric.py:51-62 | a detector exists only for valid parameters and starts unfitted |
| `Gaussian.MahalanobisAtLocation` | kenchi/outlier_detection/statistical/parametric.py:152 | the fitted location has Mahalanobis distance zero |
| `Gaussian.FeatureEntryLowerBound` | kenchi/outlier_detection/statistical/parametric.py:176-180 | each feature-wise score is at least its log term, because the precision diagonal is positive and the square is non-negative |
| `Gaussian.FeatureEntryAtLocation` | kenchi/outlier_detection/statistical/parametric.py:176-180 | at the location each feature-wise score is its log term alone |
| `Gaussian.AnomalyScore` | kenchi/outlier_detection/statistical/parametric.py:131-152 | not-fitted before fit, the cached y_score_ for no argument, Mahalanobis distances for a well-shaped query of the fitted width, invalid input otherwise |
| `Gaussian.FeatureWiseAnomalyScore` | kenchi/outlier_detection/statistical/parametric.py:155-180 | not-fitted before fit, the cached Y_score_ for no argument; a query of the fitted width gets its n x d feature-wise score matrix, a one-column query is broadcast across the features, any other width is invalid input |
| `Gaussian.OneColumnQueryBroadcasts` | kenchi/outlier_detection/statistical/parametric.py:180 | a one-column query [[v]] scores exactly like the row that repeats v in every feature |
| `Gaussian.Fit` | kenchi/outlier_detection/statistical/parametric.py:94-128 | fit succeeds exactly on a well-shaped X with at least two samples and two features (fewer samples is too-few-samples, one feature is invalid input); y_score_ holds the distances and the threshold is the chi-squared quantile at 1 - fpr; Y_score_ is n_samples x n_features with entry (i, j) feature j's score of row i, and the feature-wise threshold has one column percentile per feature |
| `Gaussian.CachedScoresAreFresh` | kenchi/outlier_detection/statistical/parametric.py:145-180 | after fit, both cached score arrays equal fresh scores of the training set |
| `Gaussian.Predict` | kenchi/base.py:32-48 | not-fitted before fit; a scoring error is passed on; succeeds whenever the detector is fitted and anomaly_score succeeds, with one label per score, 1 exactly above the threshold |
| `Gaussian.FitPredictLabelsTrainingSet` | kenchi/base.py:50-65 | fit_predict fails exactly with fit's error and otherwise equals the decision rule over the cached distances and chi-squared threshold |
| `Gaussian.LowerFprRaisesThresholds` | kenchi/outlier_detection/statistical/parametric.py:117-126 | of two detectors fitted on the same data that differ only in fpr, the one with the lower fpr has a chi-squared threshold and every per-feature threshold at least as high (for a quantile and percentile growing with their rank), and flags no training sample the other does not |
| `GaussianMixture.CheckParams` | kenchi/outlier_detection/statistical/parametric.py:247-277 | passes exactly when covariance_type is listed, fpr is in [0, 1], max_iter > 0, n_components > 0 and tol >= 0; otherwise it names the first failing parameter in source order |
| `GaussianMixture.CovarianceChoice` | kenchi/outlier_detection/statistical/parametric.py:12 | with the numeric checks passed, exactly full, tied, diag and spherical are accepted |
| `GaussianMixture.New` | kenchi/outlier_detection/statistical/parametric.py:226-245 | a detector exists only for valid parameters and starts unfitted |
| `GaussianMixture.FreshScore` | kenchi/outlier_detection/statistical/parametric.py:335-337 | a well-shaped query of the fitted width gets one score per row, the negated log-likelihood; anything else is invalid input |
| `GaussianMixture.AnomalyScore` | kenchi/outlier_detection/statistical/parametric.py:316-337 | not-fitted before fit, the cached y_score_ for no argument, fresh scores for explicit samples |
| `GaussianMixture.Fit` | kenchi/outlier_detection/statistical/parametric.py:280-313 | fit succeeds exactly on a well-shaped X with at least n_components samples (fewer is too-few-samples); y_score_ is the negated log-likelihood of each row; the threshold is its percentile at rank 100 (1 - fpr) |
| `GaussianMixture.CachedScoresAreFresh` | kenchi/outlier_detection/statistical/parametric.py:330-337 | after fit, the cached scores equal fresh scores of the training set |
| `GaussianMixture.Predict` | kenchi/base.py:32-48 | not-fitted before fit; a scoring error is passed on; succeeds whenever the detector is fitted and anomaly_score succeeds, with one label per score, 1 exactly above the threshold |
| `GaussianMixture.FitPredictLabelsTrainingSet` | kenchi/base.py:50-65 | fit_predict succeeds exactly on a well-shaped X with at least n_components samples, fails too-few-samples on fewer, and otherwise equals the decision rule over the cached scores and threshold |
| `VonMisesFisher.CheckParams` | kenchi/outlier_detection/statistical/parametric.py:366-374 | passes exactly when fpr is in [0, 1], whatever assume_normalized is |
| `VonMisesFisher.New` | kenchi/outlier_detection/statistical/parametric.py:360-364 | a detector exists exactly for fpr in [0, 1] and starts unfitted |
| `VonMisesFisher.RowScoreBounds` | kenchi/outlier_detection/statistical/parametric.py:431 | for a unit row and a unit mean direction the score lies in [0, 2] |
| `VonMisesFisher.MeanDirectionScoresZero` | kenchi/outlier_detection/statistical/parametric.py:398-431 | after fit, scoring the fitted mean direction itself gives [0] when that direction is a unit vector the normaliser leaves unchanged |
| `VonMisesFisher.ScoresBounded` | kenchi/outlier_detection/statistical/parametric.py:431 | scores of unit rows against a unit mean direction all lie in [0, 2] |
| `VonMisesFisher.NormalizeRows` | kenchi/outlier_detection/statistical/parametric.py:395 | normalising keeps the number of rows and the width of each |
| `VonMisesFisher.FreshScore` | kenchi/outlier_detection/statistical/parametric.py:426-431 | a well-shaped query of the fitted width is normalised unless assumed normalised, then scored; anything else is invalid input |
| `VonMisesFisher.FittedModel` | kenchi/outlier_detection/statistical/parametric.py:393-398 | `_normalizer` exists exactly when assume_normalized is false; the mean direction has the training width |
| `VonMisesFisher.AnomalyScoreAsWritten` | kenchi/outlier_detection/statistical/parametric.py:407-431 | as written, every call fails not-fitted while `_normalizer` is absent, even on a detector whose fit completed |
| `VonMisesFisher.FitAsWrittenFails` | kenchi/outlier_detection/statistical/parametric.py:391-402 | as written, fit succeeds exactly on a well-shaped X with assume_normalized false; with assume_normalized true it always fails not-fitted |
| `VonMisesFisher.AnomalyScore` | kenchi/outlier_detection/statistical/parametric.py:407-431 | corrected: the fitted check looks at the fitted state (mean_direction_), not `_normalizer`; not-fitted before fit, the cached y_score_ for no argument, fresh scores for explicit samples |
| `VonMisesFisher.Fit` | kenchi/outlier_detection/statistical/parametric.py:377-404 | fit succeeds exactly on a well-shaped X; the mean direction is the scaled column mean of the training rows; each cached score is 1 - x . mean_direction of the (twice) normalised row; the threshold is the chi-squared quantile at 1 - fpr |
| `VonMisesFisher.FitAgreesWithSource` | kenchi/outlier_detection/statistical/parametric.py:377-404 | with assume_normalized false, the corrected fit and the fit as written agree |
| `VonMisesFisher.AnomalyScoreAgreesWithSource` | kenchi/outlier_detection/statistical/parametric.py:421 | with assume_normalized false, the corrected fitted check and the one as written agree |
| `VonMisesFisher.CachedScoresAreFresh` | kenchi/outlier_detection/statistical/parametric.py:395-431 | when the normaliser is idempotent on the training rows (or normalisation is off), the cached scores equal fresh scores of the training set |
| `VonMisesFisher.Predict` | kenchi/base.py:32-48 | corrected: over the corrected anomaly_score; not-fitted before fit; a scoring error is passed on; succeeds whenever the detector is fitted and anomaly_score succeeds, with one label per score, 1 exactly above the threshold |
| `VonMisesFisher.FitPredictLabelsTrainingSet` | kenchi/base.py:50-65 | corrected: over the corrected fit; with an idempotent normaliser, fit_predict fails on a badly shaped X and otherwise equals the decision rule over the cached scores and threshold |

## Left out

- The scikit-learn estimators and the SciPy and NumPy routines listed above are not modelled; their outputs are arguments. This covers NearestNeighbors, KernelDensity, GraphLasso, GaussianMixture's EM, Normalizer, `np.linalg.norm`, `np.percentile`, `chi2.fit` and `chi2.ppf`. The estimators' own refusals that are modelled are the ones named above: the known metrics of the kernel density estimate and of the neighbour index, joblib's refusal of n_jobs = 0, the graphical lasso's two samples and two features, and the mixture's n_components samples. Where a property needs something of them, it is a stated precondition: a positive precision diagonal, a width-preserving normaliser, the percentile returning the maximum at rank 100, an idempotent normaliser, a percentile and a chi-squared quantile that grow with their rank (`Base.GrowsWithRank`), and a unit mean direction that the normaliser leaves unchanged (`VonMisesFisher.MeanDirectionScoresZero`).
- `log` and `sqrt` are not modelled. The log term of the feature-wise score is the argument `halfLog`, and the division by the norm of the mean is the argument `direction`.
- IEEE floating point is not modelled: scores are exact reals. The only floating-point behaviour kept is FastABOD's 0/0 trap, which is modelled as an explicit zero-denominator check.
- joblib's `Parallel` and `gen_even_slices` are not modelled as concurrency. The model is a sequential map over an arbitrary contiguous, in-order partition, and `AngleBased.AnomalyScoreIgnoresSlicing` shows that the partition does not matter. Of the `n_jobs` values, the corrected model refuses 0, as `Parallel` does, and accepts every other value; the model as written also refuses every value below 1, as `gen_even_slices` does. How many cores -1 stands for is not modelled, since the partition does not matter.
- `check_array` is modelled only as a shape check: at least one row, at least one column, all rows equally wide. Finiteness and dtype checks are left out.
- For the kernel-density, mixture and von Mises–Fisher detectors, a query whose width differs from the training width is refused inside `score_samples` or by the matrix product `X @ mean_direction_`, not by the detector. The model refuses it in the shape check and reports invalid input.
- Gaussian.AnomalyScore: refuses a query whose width differs from the training width. Whether the graphical lasso's `mahalanobis` refuses it or broadcasts a one-column query depends on the scikit-learn version, which is not part of this model.
- Gaussian.FeatureWiseAnomalyScore: models numpy's broadcasting only for the width-1 query, the one case where `X - location_` broadcasts against a wider location; every other width mismatch is refused as invalid input.
- GaussianMixture.Fit: models only the n_components sample minimum of the mixture's own `fit`. Its other input checks (the shapes of `means_init`, `precisions_init` and `weights_init`, and any minimum a particular scikit-learn version adds) are not modelled.
- The pandas decorators (`assign_info_on_pandas_obj`, `construct_pandas_obj`) and `plot_anomaly_score` are presentation only and are left out.
- Parameters that are only passed through to an estimator are left out: `metric_params`, GaussianMixture's `means_init`, `precisions_init`, `random_state`, `warm_start` and `weights_init`. `metric` is checked against the set of metrics the kernel density estimate or the neighbour index accepts, and `n_jobs` is checked as described above; `assume_centered` is kept as a field but influences nothing the model computes.
- Attributes assigned before a later step of `fit` raises are left out. The model's `Fit` returns an error, and the caller keeps its previous detector.
- `decision_function` and `GGMOutlierDetector`, which the Gaussian test file refers to, are not defined in the modelled files.
- VonMisesFisher.CachedScoresAreFresh: assumes the normaliser is idempotent on the training rows, because the source normalises them twice and the normaliser is not defined in the model.
- VonMisesFisher.FitPredictLabelsTrainingSet: assumes the same idempotence, for the same reason, so it is weaker than the source's promise that fit_predict labels the training set by its scores.

## Findings

| source | as written | input that shows it | evidently intended | confidence | as-written member | corrected member |
|---|---|---|---|---|---|---|
| kenchi/base.py:65 | FastABOD's `fit_predict(X)` calls `predict(X)` with the training matrix passed explicitly. `anomaly_score` then asks the index for neighbours of X with X given, so each training row is listed among its own neighbours. Its zero difference vector gives 0/0, and the call raises "X must not contain training samples" | any X of more than n_neighbors distinct rows with default parameters: `FastABOD().fit_predict(X)` | label the training set from the in-sample scores, as the other detectors do | not executed | `AngleBased.FitPredictRejectsTrainingSet` | `AngleBased.FitPredictInSample` |
| kenchi/outlier_detection/statistical/parametric.py:421 | the fitted check of the von Mises–Fisher `anomaly_score` names `_normalizer`, which `fit` sets only when assume_normalized is false. `fit` calls `anomaly_score` itself, so with assume_normalized true `fit` always raises NotFittedError | `VMFOutlierDetector(assume_normalized=True).fit(X)` for any X that passes check_array | check a fitted attribute that every fit sets (mean_direction_) | not executed | `VonMisesFisher.FitAsWrittenFails` | `VonMisesFisher.Fit` |
| kenchi/outlier_detection/angle_based/abod.py:163 | FastABOD's `anomaly_score` slices the rows with `gen_even_slices(n_samples, self.n_jobs)`, which raises ValueError for n_jobs < 1. The docstring offers n_jobs = -1 for all CPU cores, and `fit` calls `anomaly_score`, so with n_jobs = -1 every fit fails | `FastABOD(n_jobs=-1).fit(X)` for any X of more than n_neighbors distinct rows | slice for the effective number of jobs, as `Parallel` does for -1 | not executed | `AngleBased.FitAsWrittenRejectsAllCores` | `AngleBased.Fit` |
