/**
 GaussianOutlierDetector: squared Mahalanobis distance under a sparse
 precision matrix learnt by the graphical lasso, a chi-squared threshold, and
 per-feature scores with per-feature percentile thresholds.
 */
module Gaussian {
  import opened Base
  import opened Vectors

  datatype Params = Params(alpha: real, assumeCentered: bool, fpr: real, maxIter: int, tol: real)

  predicate ValidParams(ps: Params) {
    0.0 <= ps.alpha <= 1.0 && FprValid(ps.fpr) && ps.maxIter > 0 && ps.tol >= 0.0
  }

  /** check_params: alpha, fpr, max_iter, tol in that order; the first failing check is reported. */
  function CheckParams(ps: Params): (r: Outcome)
    ensures r.Pass? <==> ValidParams(ps)
    ensures !(0.0 <= ps.alpha <= 1.0) ==> r == Fail(InvalidParameter("alpha"))
    ensures 0.0 <= ps.alpha <= 1.0 && !FprValid(ps.fpr) ==> r == Fail(InvalidParameter("fpr"))
    ensures 0.0 <= ps.alpha <= 1.0 && FprValid(ps.fpr) && ps.maxIter <= 0 ==> r == Fail(InvalidParameter("max_iter"))
    ensures 0.0 <= ps.alpha <= 1.0 && FprValid(ps.fpr) && ps.maxIter > 0 && ps.tol < 0.0 ==>
      r == Fail(InvalidParameter("tol"))
  {
    if ps.alpha < 0.0 || 1.0 < ps.alpha then Fail(InvalidParameter("alpha"))
    else if ps.fpr < 0.0 || 1.0 < ps.fpr then Fail(InvalidParameter("fpr"))
    else if ps.maxIter <= 0 then Fail(InvalidParameter("max_iter"))
    else if ps.tol < 0.0 then Fail(InvalidParameter("tol"))
    else Pass
  }

  /** What the graphical lasso hands back: the precision matrix and the location it centres on. */
  datatype Glasso = Glasso(precision: Matrix, location: Row)

  /** A fitted graphical lasso for `width` features: square precision with a positive diagonal. */
  predicate GlassoOf(g: Glasso, width: nat) {
    |g.location| == width && IsSquare(g.precision, width) &&
    forall j :: 0 <= j < width ==> g.precision[j][j] > 0.0
  }

  /** The fitted state: the estimator plus the feature-wise scores and thresholds fit caches. */
  datatype Model = Model(glasso: Glasso, featureScores: Matrix, featureThreshold: Row)

  type GaussianDetector = Detector<Params, Model>

  predicate Valid(d: GaussianDetector) {
    ValidParams(d.params) &&
    (d.state.Fitted? ==>
      var m := d.state.model;
      var w := |m.glasso.location|;
      w >= 1 && GlassoOf(m.glasso, w) && RowsOfWidth(m.featureScores, w) && |m.featureThreshold| == w)
  }

  function New(ps: Params): (r: Result<GaussianDetector>)
    ensures r.Ok? <==> ValidParams(ps)
    ensures r.Ok? ==> Valid(r.value) && r.value.params == ps && r.value.state.Unfitted?
    ensures r.Err? ==> r.error == CheckParams(ps).error
  {
    match CheckParams(ps)
    case Fail(e) => Err(e)
    case Pass =>
      Ok(Detector(ps, Unfitted))
  }

  /** The squared Mahalanobis distance `(x - loc) @ P . (x - loc)` of one row. */
  function Mahalanobis(g: Glasso, x: Row): real
    requires GlassoOf(g, |x|)
  {
    var c := Sub(x, g.location);
    Dot(VecMat(c, g.precision), c)
  }

  /** The location itself is at distance zero. */
  lemma MahalanobisAtLocation(g: Glasso)
    requires GlassoOf(g, |g.location|)
    ensures Mahalanobis(g, g.location) == 0.0
  {
    var c := Sub(g.location, g.location);
    assert IsZero(c);
    DotZeroRight(VecMat(c, g.precision), c);
  }

  /** One Mahalanobis distance per row. */
  function Distances(g: Glasso, X: Matrix): (r: seq<real>)
    requires RowsOfWidth(X, |g.location|) && GlassoOf(g, |g.location|)
    ensures |r| == |X|
    ensures forall i :: 0 <= i < |X| ==> r[i] == Mahalanobis(g, X[i])
  {
    seq(|X|, i requires 0 <= i < |X| => Mahalanobis(g, X[i]))
  }

  /**
   One feature-wise score: `halfLog(P_jj) + 0.5 / P_jj * ((x - loc) @ P)_j^2`,
   where halfLog stands for `0.5 * log(2 pi / .)`.
   */
  function FeatureEntry(g: Glasso, x: Row, j: nat, halfLog: real -> real): real
    requires GlassoOf(g, |x|) && j < |x|
  {
    var p := g.precision[j][j];
    var u := VecMat(Sub(x, g.location), g.precision)[j];
    halfLog(p) + Mul(0.5 / p, Mul(u, u))
  }

  /** The variance-driven part of a feature score is never negative: each score is at least its log term. */
  lemma FeatureEntryLowerBound(g: Glasso, x: Row, j: nat, halfLog: real -> real)
    requires GlassoOf(g, |x|) && j < |x|
    ensures FeatureEntry(g, x, j, halfLog) >= halfLog(g.precision[j][j])
  {
    var p := g.precision[j][j];
    var u := VecMat(Sub(x, g.location), g.precision)[j];
    SquareNonneg(u);
    MulNonneg(0.5 / p, Mul(u, u));
  }

  /** At the location every feature scores only its log term. */
  lemma FeatureEntryAtLocation(g: Glasso, j: nat, halfLog: real -> real)
    requires GlassoOf(g, |g.location|) && j < |g.location|
    ensures FeatureEntry(g, g.location, j, halfLog) == halfLog(g.precision[j][j])
  {
    var c := Sub(g.location, g.location);
    assert IsZero(c);
    VecMatZero(c, g.precision);
    assert VecMat(c, g.precision)[j] == 0.0;
  }

  function FeatureRow(g: Glasso, x: Row, halfLog: real -> real): (r: Row)
    requires GlassoOf(g, |x|)
    ensures |r| == |x|
    ensures forall j :: 0 <= j < |x| ==> r[j] == FeatureEntry(g, x, j, halfLog)
  {
    seq(|x|, j requires 0 <= j < |x| => FeatureEntry(g, x, j, halfLog))
  }

  /** The feature-wise score matrix: one row per sample, one column per feature. */
  function FeatureScores(g: Glasso, X: Matrix, halfLog: real -> real): (Y: Matrix)
    requires RowsOfWidth(X, |g.location|) && GlassoOf(g, |g.location|)
    ensures |Y| == |X| && RowsOfWidth(Y, |g.location|)
    ensures forall i, j :: 0 <= i < |X| && 0 <= j < |g.location| ==> Y[i][j] == FeatureEntry(g, X[i], j, halfLog)
  {
    seq(|X|, i requires 0 <= i < |X| => FeatureRow(g, X[i], halfLog))
  }

  /** np.percentile over axis 0: one threshold per feature, each read off that feature's column. */
  function ColumnPercentiles(Y: Matrix, width: nat, pct: Percentile, rank: real): (r: Row)
    requires RowsOfWidth(Y, width)
    ensures |r| == width
    ensures forall j :: 0 <= j < width ==> r[j] == pct(Column(Y, j), rank)
  {
    seq(width, j requires 0 <= j < width => pct(Column(Y, j), rank))
  }

  /** numpy broadcasting of a one-column matrix to `width` columns: every entry of a row repeats its single value. */
  function Broadcast(X: Matrix, width: nat): (Z: Matrix)
    requires RowsOfWidth(X, 1)
    ensures |Z| == |X| && RowsOfWidth(Z, width)
    ensures forall i, j :: 0 <= i < |X| && 0 <= j < width ==> Z[i][j] == X[i][0]
  {
    seq(|X|, i requires 0 <= i < |X| => seq(width, _ => X[i][0]))
  }

  /** anomaly_score: not-fitted before fit; the cached scores for no argument; Mahalanobis distances otherwise. */
  function AnomalyScore(d: GaussianDetector, q: Query): (r: Result<seq<real>>)
    requires Valid(d)
    ensures d.state.Unfitted? ==> r == Err(NotFitted)
    ensures d.state.Fitted? && q.InSample? ==> r == Ok(d.state.yScore)
    ensures d.state.Fitted? && q.Samples? ==>
      (r.Ok? <==> IsMatrix(q.rows) && Width(q.rows) == |d.state.model.glasso.location|)
    ensures d.state.Fitted? && q.Samples? && r.Ok? ==>
      r.value == Distances(d.state.model.glasso, q.rows)
    ensures r.Err? ==> r.error == NotFitted || r.error == InvalidInput
  {
    match d.state
    case Unfitted => Err(NotFitted)
    case Fitted(m, yScore, _) =>
      match q
      case InSample => Ok(yScore)
      case Samples(X) =>
        :- CheckQuery(X, |m.glasso.location|);
        Ok(Distances(m.glasso, X))
  }

  /**
   feature_wise_anomaly_score: the same three-way split over the n x d score
   matrix. The width check here is numpy's broadcasting of `X - location_`: a
   query of the fitted width is scored as it is, a one-column query is
   broadcast across every feature, any other width is refused.
   */
  function FeatureWiseAnomalyScore(d: GaussianDetector, q: Query, halfLog: real -> real): (r: Result<Matrix>)
    requires Valid(d)
    ensures d.state.Unfitted? ==> r == Err(NotFitted)
    ensures d.state.Fitted? && q.InSample? ==> r == Ok(d.state.model.featureScores)
    ensures d.state.Fitted? && q.Samples? ==>
      (r.Ok? <==> IsMatrix(q.rows) && (Width(q.rows) == |d.state.model.glasso.location| || Width(q.rows) == 1))
    ensures r.Err? ==> r.error == NotFitted || r.error == InvalidInput
    ensures r.Ok? ==> d.state.Fitted? && RowsOfWidth(r.value, |d.state.model.glasso.location|)
    ensures r.Ok? && q.Samples? ==> |r.value| == |q.rows|
    ensures r.Ok? && q.Samples? && Width(q.rows) == |d.state.model.glasso.location| ==>
      r.value == FeatureScores(d.state.model.glasso, q.rows, halfLog)
    ensures r.Ok? && q.Samples? && Width(q.rows) != |d.state.model.glasso.location| ==>
      r.value == FeatureScores(d.state.model.glasso, Broadcast(q.rows, |d.state.model.glasso.location|), halfLog)
  {
    match d.state
    case Unfitted => Err(NotFitted)
    case Fitted(m, _, _) =>
      match q
      case InSample => Ok(m.featureScores)
      case Samples(X) =>
        var w := |m.glasso.location|;
        if !IsMatrix(X) then Err(InvalidInput)
        else if Width(X) == w then Ok(FeatureScores(m.glasso, X, halfLog))
        else if Width(X) == 1 then Ok(FeatureScores(m.glasso, Broadcast(X, w), halfLog))
        else Err(InvalidInput)
  }

  /** A one-column query is scored like the row that repeats its value in every feature. */
  lemma OneColumnQueryBroadcasts(d: GaussianDetector, v: real, halfLog: real -> real)
    requires Valid(d) && d.state.Fitted?
    ensures FeatureWiseAnomalyScore(d, Samples([[v]]), halfLog) ==
            FeatureWiseAnomalyScore(d, Samples([seq(|d.state.model.glasso.location|, _ => v)]), halfLog)
  {
    var w := |d.state.model.glasso.location|;
    var row := seq(w, _ => v);
    assert IsMatrix([row]) && Width([row]) == w;
    if w != 1 {
      assert Broadcast([[v]], w) == [row];
    } else {
      assert row == [v] by { assert |row| == 1 && row[0] == v; }
    }
  }

  /**
   fit: shape-check X; the graphical lasso's own check_array then demands at
   least two samples and at least two features. Take the lasso fitted on X,
   cache the distances and their chi-squared threshold at probability
   1 - fpr, then the feature-wise scores and their column-wise percentiles.
   */
  function Fit(d: GaussianDetector, X: Matrix, g: Glasso, chi2: Chi2Quantile, halfLog: real -> real, pct: Percentile)
    : (r: Result<GaussianDetector>)
    requires Valid(d)
    requires IsMatrix(X) ==> GlassoOf(g, Width(X))
    ensures r.Ok? <==> IsMatrix(X) && |X| >= 2 && Width(X) >= 2
    ensures !IsMatrix(X) ==> r == Err(InvalidInput)
    ensures IsMatrix(X) && |X| < 2 ==> r == Err(TooFewSamples)
    ensures IsMatrix(X) && |X| >= 2 && Width(X) < 2 ==> r == Err(InvalidInput)
    ensures r.Ok? ==> Valid(r.value) && r.value.params == d.params && r.value.state.Fitted?
    ensures r.Ok? ==> r.value.state.model.glasso == g
    ensures r.Ok? ==> |r.value.state.yScore| == |X|
    ensures r.Ok? ==> forall i :: 0 <= i < |X| ==> r.value.state.yScore[i] == Mahalanobis(g, X[i])
    ensures r.Ok? ==> r.value.state.threshold == chi2(r.value.state.yScore, 1.0 - d.params.fpr)
    ensures r.Ok? ==> |r.value.state.model.featureScores| == |X| && RowsOfWidth(r.value.state.model.featureScores, Width(X))
    ensures r.Ok? ==> forall i, j :: 0 <= i < |X| && 0 <= j < Width(X) ==>
      r.value.state.model.featureScores[i][j] == FeatureEntry(g, X[i], j, halfLog)
    ensures r.Ok? ==> |r.value.state.model.featureThreshold| == Width(X)
    ensures r.Ok? ==> forall j :: 0 <= j < Width(X) ==>
      r.value.state.model.featureThreshold[j] == pct(Column(r.value.state.model.featureScores, j), PercentileRank(d.params.fpr))
  {
    match CheckArray(X)
    case Fail(e) => Err(e)
    case Pass =>
      if |X| < 2 then Err(TooFewSamples)
      else if Width(X) < 2 then Err(InvalidInput)
      else
        var y := Distances(g, X);
        var Y := FeatureScores(g, X, halfLog);
        var ft := ColumnPercentiles(Y, Width(X), pct, PercentileRank(d.params.fpr));
        Ok(Detector(d.params, Fitted(Model(g, Y, ft), y, chi2(y, 1.0 - d.params.fpr))))
  }

  /** After fit, both cached score arrays are what scoring the training set afresh gives. */
  lemma CachedScoresAreFresh(d: GaussianDetector, X: Matrix, g: Glasso, chi2: Chi2Quantile, halfLog: real -> real, pct: Percentile)
    requires Valid(d) && IsMatrix(X) && |X| >= 2 && Width(X) >= 2 && GlassoOf(g, Width(X))
    ensures Fit(d, X, g, chi2, halfLog, pct).Ok?
    ensures AnomalyScore(Fit(d, X, g, chi2, halfLog, pct).value, InSample) ==
            AnomalyScore(Fit(d, X, g, chi2, halfLog, pct).value, Samples(X))
    ensures FeatureWiseAnomalyScore(Fit(d, X, g, chi2, halfLog, pct).value, InSample, halfLog) ==
            FeatureWiseAnomalyScore(Fit(d, X, g, chi2, halfLog, pct).value, Samples(X), halfLog)
  {
    var f := Fit(d, X, g, chi2, halfLog, pct).value;
    assert f.state.yScore == Distances(g, X);
    assert f.state.model.featureScores == FeatureScores(g, X, halfLog);
  }

  function Predict(d: GaussianDetector, q: Query): (r: Result<seq<int>>)
    requires Valid(d)
    ensures d.state.Unfitted? ==> r == Err(NotFitted)
    ensures d.state.Fitted? && AnomalyScore(d, q).Err? ==> r == Err(AnomalyScore(d, q).error)
    ensures d.state.Fitted? && AnomalyScore(d, q).Ok? ==> r.Ok?
    ensures r.Ok? ==> d.state.Fitted? && AnomalyScore(d, q).Ok? && |r.value| == |AnomalyScore(d, q).value|
    ensures r.Ok? ==> forall i :: 0 <= i < |r.value| ==>
      (r.value[i] == 1 <==> AnomalyScore(d, q).value[i] > d.state.threshold) &&
      (r.value[i] == 0 <==> AnomalyScore(d, q).value[i] <= d.state.threshold)
  {
    PredictFrom(d.state, AnomalyScore(d, q))
  }

  /** fit_predict: fit on X, then predict with X passed explicitly. */
  function FitPredict(d: GaussianDetector, X: Matrix, g: Glasso, chi2: Chi2Quantile, halfLog: real -> real, pct: Percentile)
    : (r: Result<seq<int>>)
    requires Valid(d)
    requires IsMatrix(X) ==> GlassoOf(g, Width(X))
  {
    var f :- Fit(d, X, g, chi2, halfLog, pct);
    Predict(f, Samples(X))
  }

  /** fit_predict labels the training set by comparing its cached distances with the chi-squared threshold. */
  lemma FitPredictLabelsTrainingSet(d: GaussianDetector, X: Matrix, g: Glasso, chi2: Chi2Quantile, halfLog: real -> real, pct: Percentile)
    requires Valid(d)
    requires IsMatrix(X) ==> GlassoOf(g, Width(X))
    ensures FitPredict(d, X, g, chi2, halfLog, pct).Err? ==>
      FitPredict(d, X, g, chi2, halfLog, pct) == Err(Fit(d, X, g, chi2, halfLog, pct).error)
    ensures Fit(d, X, g, chi2, halfLog, pct).Ok? ==>
      FitPredict(d, X, g, chi2, halfLog, pct) ==
      Ok(Decide(Fit(d, X, g, chi2, halfLog, pct).value.state.yScore, Fit(d, X, g, chi2, halfLog, pct).value.state.threshold))
  {
    if Fit(d, X, g, chi2, halfLog, pct).Ok? {
      CachedScoresAreFresh(d, X, g, chi2, halfLog, pct);
    }
  }

  /**
   Two detectors fitted on the same data that differ only in fpr: the one with
   the lower rate has a threshold and per-feature thresholds at least as high
   (for a quantile and a percentile that grow with their rank), and so flags
   no training sample the other one does not.
   */
  lemma LowerFprRaisesThresholds(strict: GaussianDetector, loose: GaussianDetector, X: Matrix, g: Glasso,
                                 chi2: Chi2Quantile, halfLog: real -> real, pct: Percentile)
    requires Valid(strict) && Valid(loose) && GrowsWithRank(chi2) && GrowsWithRank(pct)
    requires loose.params == strict.params.(fpr := loose.params.fpr) && strict.params.fpr <= loose.params.fpr
    requires IsMatrix(X) && |X| >= 2 && Width(X) >= 2 && GlassoOf(g, Width(X))
    ensures Fit(strict, X, g, chi2, halfLog, pct).Ok? && Fit(loose, X, g, chi2, halfLog, pct).Ok?
    ensures Fit(loose, X, g, chi2, halfLog, pct).value.state.threshold <= Fit(strict, X, g, chi2, halfLog, pct).value.state.threshold
    ensures forall j :: 0 <= j < Width(X) ==>
      Fit(loose, X, g, chi2, halfLog, pct).value.state.model.featureThreshold[j] <=
      Fit(strict, X, g, chi2, halfLog, pct).value.state.model.featureThreshold[j]
    ensures forall i :: 0 <= i < |X| ==>
      FitPredict(strict, X, g, chi2, halfLog, pct).value[i] <= FitPredict(loose, X, g, chi2, halfLog, pct).value[i]
  {
    var s := Fit(strict, X, g, chi2, halfLog, pct).value;
    var l := Fit(loose, X, g, chi2, halfLog, pct).value;
    assert s.state.yScore == l.state.yScore;
    assert s.state.model.featureScores == l.state.model.featureScores;
    FitPredictLabelsTrainingSet(strict, X, g, chi2, halfLog, pct);
    FitPredictLabelsTrainingSet(loose, X, g, chi2, halfLog, pct);
    DecideMonotone(s.state.yScore, l.state.threshold, s.state.threshold);
  }
}

/**
 GaussianMixtureOutlierDetector: the anomaly score of a sample is its negated
 log-likelihood under a Gaussian mixture fitted by sklearn's EM, which enters
 as a function.
 */
module GaussianMixture {
  import opened Base

  /** The covariance structures sklearn's GaussianMixture accepts. */
  const CovarianceTypes: seq<string> := ["full", "tied", "diag", "spherical"]

  /**
   The validated hyperparameters; means_init, precisions_init, random_state,
   warm_start and weights_init go straight to the estimator and are left out.
   */
  datatype Params = Params(covarianceType: string, fpr: real, maxIter: int, nComponents: int, tol: real)

  predicate ValidParams(ps: Params) {
    ps.covarianceType in CovarianceTypes && FprValid(ps.fpr) && ps.maxIter > 0 && ps.nComponents > 0 && ps.tol >= 0.0
  }

  /** check_params: covariance_type, fpr, max_iter, n_components, tol in that order. */
  function CheckParams(ps: Params): (r: Outcome)
    ensures r.Pass? <==> ValidParams(ps)
    ensures ps.covarianceType !in CovarianceTypes ==> r == Fail(InvalidParameter("covariance_type"))
    ensures ps.covarianceType in CovarianceTypes && !FprValid(ps.fpr) ==> r == Fail(InvalidParameter("fpr"))
    ensures ps.covarianceType in CovarianceTypes && FprValid(ps.fpr) && ps.maxIter <= 0 ==>
      r == Fail(InvalidParameter("max_iter"))
    ensures ps.covarianceType in CovarianceTypes && FprValid(ps.fpr) && ps.maxIter > 0 && ps.nComponents <= 0 ==>
      r == Fail(InvalidParameter("n_components"))
    ensures ps.covarianceType in CovarianceTypes && FprValid(ps.fpr) && ps.maxIter > 0 && ps.nComponents > 0 && ps.tol < 0.0 ==>
      r == Fail(InvalidParameter("tol"))
  {
    if ps.covarianceType !in CovarianceTypes then Fail(InvalidParameter("covariance_type"))
    else if ps.fpr < 0.0 || 1.0 < ps.fpr then Fail(InvalidParameter("fpr"))
    else if ps.maxIter <= 0 then Fail(InvalidParameter("max_iter"))
    else if ps.nComponents <= 0 then Fail(InvalidParameter("n_components"))
    else if ps.tol < 0.0 then Fail(InvalidParameter("tol"))
    else Pass
  }

  /** Once the numeric checks pass, exactly the four named covariance structures are accepted. */
  lemma CovarianceChoice(ps: Params)
    requires FprValid(ps.fpr) && ps.maxIter > 0 && ps.nComponents > 0 && ps.tol >= 0.0
    ensures CheckParams(ps).Pass? <==>
      ps.covarianceType == "full" || ps.covarianceType == "tied" ||
      ps.covarianceType == "diag" || ps.covarianceType == "spherical"
  {
    if ps.covarianceType in CovarianceTypes {
      var i :| 0 <= i < |CovarianceTypes| && CovarianceTypes[i] == ps.covarianceType;
    }
  }

  /** The fitted mixture as the detector sees it: the training width and `score_samples` row by row. */
  datatype Gmm = Gmm(width: nat, logLikelihood: Row -> real)

  type MixtureDetector = Detector<Params, Gmm>

  predicate Valid(d: MixtureDetector) {
    ValidParams(d.params) && (d.state.Fitted? ==> d.state.model.width >= 1)
  }

  function New(ps: Params): (r: Result<MixtureDetector>)
    ensures r.Ok? <==> ValidParams(ps)
    ensures r.Ok? ==> Valid(r.value) && r.value.params == ps && r.value.state.Unfitted?
    ensures r.Err? ==> r.error == CheckParams(ps).error
  {
    match CheckParams(ps)
    case Fail(e) => Err(e)
    case Pass =>
      Ok(Detector(ps, Unfitted))
  }

  /** Scores computed afresh for explicit samples: shape check, then the negated log-likelihood of each row. */
  function FreshScore(m: Gmm, X: Matrix): (r: Result<seq<real>>)
    ensures r.Ok? <==> IsMatrix(X) && Width(X) == m.width
    ensures r.Err? ==> r.error == InvalidInput
    ensures r.Ok? ==> |r.value| == |X| && forall i :: 0 <= i < |X| ==> r.value[i] + m.logLikelihood(X[i]) == 0.0
  {
    match CheckQuery(X, m.width)
    case Fail(e) => Err(e)
    case Pass =>
      Ok(Negate(MapRows(m.logLikelihood, X)))
  }

  function AnomalyScore(d: MixtureDetector, q: Query): (r: Result<seq<real>>)
    ensures d.state.Unfitted? ==> r == Err(NotFitted)
    ensures d.state.Fitted? && q.InSample? ==> r == Ok(d.state.yScore)
    ensures d.state.Fitted? && q.Samples? ==> r == FreshScore(d.state.model, q.rows)
  {
    match d.state
    case Unfitted => Err(NotFitted)
    case Fitted(m, yScore, _) =>
      match q
      case InSample => Ok(yScore)
      case Samples(X) => FreshScore(m, X)
  }

  /**
   fit: shape-check X; the mixture's own fit refuses fewer samples than
   components. Take the mixture fitted on X, cache the scores and their
   (100 (1 - fpr)) percentile.
   */
  function Fit(d: MixtureDetector, X: Matrix, logLikelihood: Row -> real, pct: Percentile): (r: Result<MixtureDetector>)
    requires Valid(d)
    ensures r.Ok? <==> IsMatrix(X) && d.params.nComponents <= |X|
    ensures !IsMatrix(X) ==> r == Err(InvalidInput)
    ensures IsMatrix(X) && |X| < d.params.nComponents ==> r == Err(TooFewSamples)
    ensures r.Ok? ==> Valid(r.value) && r.value.params == d.params && r.value.state.Fitted?
    ensures r.Ok? ==> r.value.state.model == Gmm(Width(X), logLikelihood)
    ensures r.Ok? ==> |r.value.state.yScore| == |X|
    ensures r.Ok? ==> forall i :: 0 <= i < |X| ==> r.value.state.yScore[i] == -logLikelihood(X[i])
    ensures r.Ok? ==> r.value.state.threshold == pct(r.value.state.yScore, PercentileRank(d.params.fpr))
  {
    match CheckArray(X)
    case Fail(e) => Err(e)
    case Pass =>
      if |X| < d.params.nComponents then Err(TooFewSamples)
      else
        var m := Gmm(Width(X), logLikelihood);
        var s := FreshScore(m, X).value;
        Ok(Detector(d.params, Fitted(m, s, pct(s, PercentileRank(d.params.fpr)))))
  }

  lemma CachedScoresAreFresh(d: MixtureDetector, X: Matrix, logLikelihood: Row -> real, pct: Percentile)
    requires Valid(d) && Fit(d, X, logLikelihood, pct).Ok?
    ensures AnomalyScore(Fit(d, X, logLikelihood, pct).value, InSample) ==
            AnomalyScore(Fit(d, X, logLikelihood, pct).value, Samples(X))
  {
    var f := Fit(d, X, logLikelihood, pct).value;
    var s := FreshScore(f.state.model, X).value;
    assert s == f.state.yScore;
  }

  function Predict(d: MixtureDetector, q: Query): (r: Result<seq<int>>)
    ensures d.state.Unfitted? ==> r == Err(NotFitted)
    ensures d.state.Fitted? && AnomalyScore(d, q).Err? ==> r == Err(AnomalyScore(d, q).error)
    ensures d.state.Fitted? && AnomalyScore(d, q).Ok? ==> r.Ok?
    ensures r.Ok? ==> d.state.Fitted? && AnomalyScore(d, q).Ok? && |r.value| == |AnomalyScore(d, q).value|
    ensures r.Ok? ==> forall i :: 0 <= i < |r.value| ==>
      (r.value[i] == 1 <==> AnomalyScore(d, q).value[i] > d.state.threshold) &&
      (r.value[i] == 0 <==> AnomalyScore(d, q).value[i] <= d.state.threshold)
  {
    PredictFrom(d.state, AnomalyScore(d, q))
  }

  function FitPredict(d: MixtureDetector, X: Matrix, logLikelihood: Row -> real, pct: Percentile): (r: Result<seq<int>>)
    requires Valid(d)
  {
    var f :- Fit(d, X, logLikelihood, pct);
    Predict(f, Samples(X))
  }

  lemma FitPredictLabelsTrainingSet(d: MixtureDetector, X: Matrix, logLikelihood: Row -> real, pct: Percentile)
    requires Valid(d)
    ensures FitPredict(d, X, logLikelihood, pct).Ok? <==> IsMatrix(X) && d.params.nComponents <= |X|
    ensures !IsMatrix(X) ==> FitPredict(d, X, logLikelihood, pct) == Err(InvalidInput)
    ensures IsMatrix(X) && |X| < d.params.nComponents ==> FitPredict(d, X, logLikelihood, pct) == Err(TooFewSamples)
    ensures IsMatrix(X) && d.params.nComponents <= |X| ==>
      FitPredict(d, X, logLikelihood, pct) ==
      Ok(Decide(Fit(d, X, logLikelihood, pct).value.state.yScore, Fit(d, X, logLikelihood, pct).value.state.threshold))
  {
    if IsMatrix(X) && d.params.nComponents <= |X| {
      CachedScoresAreFresh(d, X, logLikelihood, pct);
    }
  }
}

/**
 VMFOutlierDetector: rows are scaled to unit length (unless assumed so), the
 mean direction is the normalised column mean, and a row's score is
 `1 - x . mean_direction`.
 */
module VonMisesFisher {
  import opened Base
  import opened Vectors

  datatype Params = Params(assumeNormalized: bool, fpr: real)

  /** check_params looks at fpr only; assume_normalized is never validated. */
  function CheckParams(ps: Params): (r: Outcome)
    ensures r.Pass? <==> FprValid(ps.fpr)
    ensures r.Fail? ==> r.error == InvalidParameter("fpr")
  {
    if ps.fpr < 0.0 || 1.0 < ps.fpr then Fail(InvalidParameter("fpr")) else Pass
  }

  /** A row-wise map that keeps every row's width (sklearn's Normalizer, and `m / norm(m)`). */
  ghost predicate PreservesWidth(f: Row -> Row) {
    forall x: Row :: |f(x)| == |x|
  }

  /**
   The attributes fit leaves behind: `_normalizer`, which exists only when
   fit normalised its input, and mean_direction_.
   */
  datatype Vmf = Vmf(normalizer: Option<Row -> Row>, meanDirection: Row)

  type VmfDetector = Detector<Params, Vmf>

  ghost predicate ModelFor(ps: Params, m: Vmf) {
    |m.meanDirection| >= 1 &&
    (!ps.assumeNormalized ==> m.normalizer.Some? && PreservesWidth(m.normalizer.value))
  }

  ghost predicate Valid(d: VmfDetector) {
    FprValid(d.params.fpr) && (d.state.Fitted? ==> ModelFor(d.params, d.state.model))
  }

  function New(ps: Params): (r: Result<VmfDetector>)
    ensures r.Ok? <==> FprValid(ps.fpr)
    ensures r.Ok? ==> Valid(r.value) && r.value.params == ps && r.value.state.Unfitted?
    ensures r.Err? ==> r.error == InvalidParameter("fpr")
  {
    match CheckParams(ps)
    case Fail(e) => Err(e)
    case Pass =>
      Ok(Detector(ps, Unfitted))
  }

  /** The score of one row against a mean direction. */
  function RowScore(x: Row, md: Row): real
    requires |x| == |md|
  {
    1.0 - Dot(x, md)
  }

  /** For unit rows and a unit mean direction, every score lies in [0, 2]. */
  lemma RowScoreBounds(x: Row, md: Row)
    requires |x| == |md| && IsUnit(x) && IsUnit(md)
    ensures 0.0 <= RowScore(x, md) <= 2.0
  {
    UnitDotBounded(x, md);
  }

  /** `1 - X @ mean_direction_`: one score per row. */
  function Scores(X: Matrix, md: Row): (r: seq<real>)
    requires RowsOfWidth(X, |md|)
    ensures |r| == |X|
    ensures forall i :: 0 <= i < |X| ==> r[i] == RowScore(X[i], md)
  {
    seq(|X|, i requires 0 <= i < |X| => RowScore(X[i], md))
  }

  /** Scores of unit rows against a unit direction all lie in [0, 2]. */
  lemma ScoresBounded(X: Matrix, md: Row)
    requires RowsOfWidth(X, |md|) && IsUnit(md)
    requires forall i :: 0 <= i < |X| ==> IsUnit(X[i])
    ensures forall i :: 0 <= i < |X| ==> 0.0 <= Scores(X, md)[i] <= 2.0
  {
    forall i | 0 <= i < |X| ensures 0.0 <= Scores(X, md)[i] <= 2.0 {
      RowScoreBounds(X[i], md);
    }
  }

  /** `Normalizer.transform`: the row-wise map applied to every row. */
  function NormalizeRows(f: Row -> Row, X: Matrix): (Z: Matrix)
    requires PreservesWidth(f)
    ensures |Z| == |X|
    ensures forall i :: 0 <= i < |X| ==> Z[i] == f(X[i])
    ensures IsMatrix(X) ==> IsMatrix(Z) && Width(Z) == Width(X)
    ensures forall w: nat :: RowsOfWidth(X, w) ==> RowsOfWidth(Z, w)
  {
    seq(|X|, i requires 0 <= i < |X| => f(X[i]))
  }

  /** What anomaly_score does once past its fitted check: shape-check, normalise unless assumed, score. */
  function FreshScore(ps: Params, m: Vmf, X: Matrix): (r: Result<seq<real>>)
    requires ModelFor(ps, m)
    ensures r.Ok? <==> IsMatrix(X) && Width(X) == |m.meanDirection|
    ensures r.Err? ==> r.error == InvalidInput
    ensures r.Ok? && ps.assumeNormalized ==> r.value == Scores(X, m.meanDirection)
    ensures r.Ok? && !ps.assumeNormalized ==> r.value == Scores(NormalizeRows(m.normalizer.value, X), m.meanDirection)
  {
    match CheckQuery(X, |m.meanDirection|)
    case Fail(e) => Err(e)
    case Pass =>
      var Z := if ps.assumeNormalized then X else NormalizeRows(m.normalizer.value, X);
      Ok(Scores(Z, m.meanDirection))
  }

  /** The rows fit works on: X itself, or X normalised. */
  function TrainingRows(ps: Params, X: Matrix, normalize: Row -> Row): (Z: Matrix)
    requires PreservesWidth(normalize)
    ensures IsMatrix(X) ==> IsMatrix(Z) && Width(Z) == Width(X)
    ensures |Z| == |X|
  {
    if ps.assumeNormalized then X else NormalizeRows(normalize, X)
  }

  /** The attributes fit sets before it scores: `_normalizer` (when normalising) and mean_direction_. */
  function FittedModel(ps: Params, X: Matrix, normalize: Row -> Row, direction: Row -> Row): (m: Vmf)
    requires IsMatrix(X) && PreservesWidth(normalize) && PreservesWidth(direction)
    ensures |m.meanDirection| == Width(X)
    ensures m.normalizer.Some? <==> !ps.assumeNormalized
    ensures !ps.assumeNormalized ==> ModelFor(ps, m)
  {
    var Z := TrainingRows(ps, X, normalize);
    Vmf(if ps.assumeNormalized then None else Some(normalize), direction(ColumnMean(Z)))
  }

  // ---------------------------------------------------------------------------
  // As written: anomaly_score's fitted check names `_normalizer`

  /** anomaly_score as written: `check_is_fitted(self, '_normalizer')` guards every path. */
  function AnomalyScoreAsWritten(d: VmfDetector, q: Query): (r: Result<seq<real>>)
    requires Valid(d)
    ensures d.state.Unfitted? ==> r == Err(NotFitted)
    ensures d.state.Fitted? && d.state.model.normalizer.None? ==> r == Err(NotFitted)
  {
    match d.state
    case Unfitted => Err(NotFitted)
    case Fitted(m, yScore, _) =>
      if m.normalizer.None? then Err(NotFitted)
      else
        match q
        case InSample => Ok(yScore)
        case Samples(X) => FreshScore(d.params, m, X)
  }

  /**
   fit as written: normalise unless assumed, set mean_direction_, then score
   the (already normalised) rows through anomaly_score, whose fitted check
   fails when `_normalizer` was never set.
   */
  function FitAsWritten(d: VmfDetector, X: Matrix, normalize: Row -> Row, direction: Row -> Row, chi2: Chi2Quantile)
    : (r: Result<VmfDetector>)
    requires Valid(d) && PreservesWidth(normalize) && PreservesWidth(direction)
    ensures r.Ok? ==> Valid(r.value) && r.value.params == d.params && r.value.state.Fitted?
  {
    match CheckArray(X)
    case Fail(e) => Err(e)
    case Pass =>
      var m := FittedModel(d.params, X, normalize, direction);
      :- Need(m.normalizer.Some?, NotFitted);
      var s := FreshScore(d.params, m, TrainingRows(d.params, X, normalize)).value;
      Ok(Detector(d.params, Fitted(m, s, chi2(s, 1.0 - d.params.fpr))))
  }

  /** As written, fit succeeds exactly on well-shaped input with normalisation on; under assume_normalized it always raises not-fitted. */
  lemma FitAsWrittenFails(d: VmfDetector, X: Matrix, normalize: Row -> Row, direction: Row -> Row, chi2: Chi2Quantile)
    requires Valid(d) && PreservesWidth(normalize) && PreservesWidth(direction)
    ensures FitAsWritten(d, X, normalize, direction, chi2).Ok? <==> IsMatrix(X) && !d.params.assumeNormalized
    ensures IsMatrix(X) && d.params.assumeNormalized ==> FitAsWritten(d, X, normalize, direction, chi2) == Err(NotFitted)
  {
  }

  // ---------------------------------------------------------------------------
  // As intended: the fitted check looks at the fitted state

  /** anomaly_score with the fitted check on the fitted state (mean_direction_). */
  function AnomalyScore(d: VmfDetector, q: Query): (r: Result<seq<real>>)
    requires Valid(d)
    ensures d.state.Unfitted? ==> r == Err(NotFitted)
    ensures d.state.Fitted? && q.InSample? ==> r == Ok(d.state.yScore)
    ensures d.state.Fitted? && q.Samples? ==> r == FreshScore(d.params, d.state.model, q.rows)
  {
    match d.state
    case Unfitted => Err(NotFitted)
    case Fitted(m, yScore, _) =>
      match q
      case InSample => Ok(yScore)
      case Samples(X) => FreshScore(d.params, m, X)
  }

  /**
   fit with that check: the training rows are normalised once in fit and
   once more inside anomaly_score, as in the source; the threshold is the
   chi-squared quantile at probability 1 - fpr.
   */
  function Fit(d: VmfDetector, X: Matrix, normalize: Row -> Row, direction: Row -> Row, chi2: Chi2Quantile)
    : (r: Result<VmfDetector>)
    requires Valid(d) && PreservesWidth(normalize) && PreservesWidth(direction)
    ensures r.Ok? <==> IsMatrix(X)
    ensures r.Err? ==> r.error == InvalidInput
    ensures r.Ok? ==> Valid(r.value) && r.value.params == d.params && r.value.state.Fitted?
    ensures r.Ok? ==> r.value.state.model.meanDirection == direction(ColumnMean(TrainingRows(d.params, X, normalize)))
    ensures r.Ok? ==> |r.value.state.yScore| == |X|
    ensures r.Ok? && d.params.assumeNormalized ==> forall i :: 0 <= i < |X| ==>
      r.value.state.yScore[i] == RowScore(X[i], r.value.state.model.meanDirection)
    ensures r.Ok? && !d.params.assumeNormalized ==> forall i :: 0 <= i < |X| ==>
      r.value.state.yScore[i] == RowScore(normalize(normalize(X[i])), r.value.state.model.meanDirection)
    ensures r.Ok? ==> r.value.state.threshold == chi2(r.value.state.yScore, 1.0 - d.params.fpr)
  {
    match CheckArray(X)
    case Fail(e) => Err(e)
    case Pass =>
      var m := FittedModel(d.params, X, normalize, direction);
      var s := FreshScore(d.params, m, TrainingRows(d.params, X, normalize)).value;
      Ok(Detector(d.params, Fitted(m, s, chi2(s, 1.0 - d.params.fpr))))
  }

  /** Where the source's fit does succeed (normalisation on), the corrected fit agrees with it. */
  lemma FitAgreesWithSource(d: VmfDetector, X: Matrix, normalize: Row -> Row, direction: Row -> Row, chi2: Chi2Quantile)
    requires Valid(d) && PreservesWidth(normalize) && PreservesWidth(direction)
    requires !d.params.assumeNormalized
    ensures FitAsWritten(d, X, normalize, direction, chi2) == Fit(d, X, normalize, direction, chi2)
  {
  }

  /** The two fitted checks agree on every detector that has a `_normalizer`. */
  lemma AnomalyScoreAgreesWithSource(d: VmfDetector, q: Query)
    requires Valid(d) && !d.params.assumeNormalized
    ensures AnomalyScoreAsWritten(d, q) == AnomalyScore(d, q)
  {
  }

  /**
   The cached training scores equal fresh scores of the training set when the
   normaliser is idempotent on its rows (the second normalisation inside fit
   then changes nothing).
   */
  lemma CachedScoresAreFresh(d: VmfDetector, X: Matrix, normalize: Row -> Row, direction: Row -> Row, chi2: Chi2Quantile)
    requires Valid(d) && PreservesWidth(normalize) && PreservesWidth(direction) && IsMatrix(X)
    requires !d.params.assumeNormalized ==> forall i :: 0 <= i < |X| ==> normalize(normalize(X[i])) == normalize(X[i])
    ensures Fit(d, X, normalize, direction, chi2).Ok?
    ensures AnomalyScore(Fit(d, X, normalize, direction, chi2).value, InSample) ==
            AnomalyScore(Fit(d, X, normalize, direction, chi2).value, Samples(X))
  {
    var f := Fit(d, X, normalize, direction, chi2).value;
    var again := FreshScore(d.params, f.state.model, X).value;
    assert again == f.state.yScore;
  }

  function Predict(d: VmfDetector, q: Query): (r: Result<seq<int>>)
    requires Valid(d)
    ensures d.state.Unfitted? ==> r == Err(NotFitted)
    ensures d.state.Fitted? && AnomalyScore(d, q).Err? ==> r == Err(AnomalyScore(d, q).error)
    ensures d.state.Fitted? && AnomalyScore(d, q).Ok? ==> r.Ok?
    ensures r.Ok? ==> d.state.Fitted? && AnomalyScore(d, q).Ok? && |r.value| == |AnomalyScore(d, q).value|
    ensures r.Ok? ==> forall i :: 0 <= i < |r.value| ==>
      (r.value[i] == 1 <==> AnomalyScore(d, q).value[i] > d.state.threshold) &&
      (r.value[i] == 0 <==> AnomalyScore(d, q).value[i] <= d.state.threshold)
  {
    PredictFrom(d.state, AnomalyScore(d, q))
  }

  function FitPredict(d: VmfDetector, X: Matrix, normalize: Row -> Row, direction: Row -> Row, chi2: Chi2Quantile)
    : (r: Result<seq<int>>)
    requires Valid(d) && PreservesWidth(normalize) && PreservesWidth(direction)
  {
    var f :- Fit(d, X, normalize, direction, chi2);
    Predict(f, Samples(X))
  }

  /** With an idempotent normaliser, fit_predict labels the training set by its cached scores. */
  lemma FitPredictLabelsTrainingSet(d: VmfDetector, X: Matrix, normalize: Row -> Row, direction: Row -> Row, chi2: Chi2Quantile)
    requires Valid(d) && PreservesWidth(normalize) && PreservesWidth(direction)
    requires !d.params.assumeNormalized ==> forall i :: 0 <= i < |X| ==> normalize(normalize(X[i])) == normalize(X[i])
    ensures !IsMatrix(X) ==> FitPredict(d, X, normalize, direction, chi2) == Err(InvalidInput)
    ensures IsMatrix(X) ==>
      FitPredict(d, X, normalize, direction, chi2) ==
      Ok(Decide(Fit(d, X, normalize, direction, chi2).value.state.yScore, Fit(d, X, normalize, direction, chi2).value.state.threshold))
  {
    if IsMatrix(X) {
      CachedScoresAreFresh(d, X, normalize, direction, chi2);
    }
  }

  /**
   After fit, a query consisting of the fitted mean direction itself scores 0
   when that direction is a unit vector (and, with normalisation on, the
   normaliser leaves it unchanged).
   */
  lemma MeanDirectionScoresZero(d: VmfDetector, X: Matrix, normalize: Row -> Row, direction: Row -> Row, chi2: Chi2Quantile)
    requires Valid(d) && PreservesWidth(normalize) && PreservesWidth(direction) && IsMatrix(X)
    requires var md := direction(ColumnMean(TrainingRows(d.params, X, normalize)));
      IsUnit(md) && (!d.params.assumeNormalized ==> normalize(md) == md)
    ensures Fit(d, X, normalize, direction, chi2).Ok?
    ensures var f := Fit(d, X, normalize, direction, chi2).value;
      AnomalyScore(f, Samples([f.state.model.meanDirection])) == Ok([0.0])
  {
    var f := Fit(d, X, normalize, direction, chi2).value;
    var md := f.state.model.meanDirection;
    assert IsMatrix([md]) && Width([md]) == |md|;
    assert md == direction(ColumnMean(TrainingRows(d.params, X, normalize)));
    if !d.params.assumeNormalized {
      assert f.state.model.normalizer == Some(normalize);
      assert NormalizeRows(normalize, [md]) == [md];
    }
    assert Scores([md], md) == [0.0];
  }
}
