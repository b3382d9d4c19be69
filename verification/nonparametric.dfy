/**
 KernelDensityOutlierDetector: the anomaly score of a sample is the negated
 log-density that a kernel density estimate fitted on the training set assigns
 to it; the estimate itself is sklearn's and enters as a function.
 */
module KernelDensity {
  import opened Base

  /** The kernels sklearn's KernelDensity accepts, in the order the module lists them. */
  const ValidKernels: seq<string> := ["gaussian", "tophat", "epanechnikov", "exponential", "linear", "cosine"]

  /** The constructor's hyperparameters (metric_params is passed through to the estimator and left out). */
  datatype Params = Params(bandwidth: real, fpr: real, kernel: string, metric: string)

  predicate ValidParams(ps: Params) {
    ps.bandwidth > 0.0 && FprValid(ps.fpr) && ps.kernel in ValidKernels
  }

  /** check_params: bandwidth, then fpr, then kernel; the first failing check is reported. */
  function CheckParams(ps: Params): (r: Outcome)
    ensures r.Pass? <==> ValidParams(ps)
    ensures ps.bandwidth <= 0.0 ==> r == Fail(InvalidParameter("bandwidth"))
    ensures ps.bandwidth > 0.0 && !FprValid(ps.fpr) ==> r == Fail(InvalidParameter("fpr"))
    ensures ps.bandwidth > 0.0 && FprValid(ps.fpr) && ps.kernel !in ValidKernels ==> r == Fail(InvalidParameter("kernel"))
  {
    if ps.bandwidth <= 0.0 then Fail(InvalidParameter("bandwidth"))
    else if ps.fpr < 0.0 || 1.0 < ps.fpr then Fail(InvalidParameter("fpr"))
    else if ps.kernel !in ValidKernels then Fail(InvalidParameter("kernel"))
    else Pass
  }

  /** With a positive bandwidth and a rate in [0, 1], exactly the six named kernels are accepted. */
  lemma KernelChoice(ps: Params)
    requires ps.bandwidth > 0.0 && FprValid(ps.fpr)
    ensures CheckParams(ps).Pass? <==>
      ps.kernel == "gaussian" || ps.kernel == "tophat" || ps.kernel == "epanechnikov" ||
      ps.kernel == "exponential" || ps.kernel == "linear" || ps.kernel == "cosine"
  {
    if ps.kernel in ValidKernels {
      var i :| 0 <= i < |ValidKernels| && ValidKernels[i] == ps.kernel;
    }
  }

  /** The fitted estimator as the detector sees it: the training width and `score_samples` row by row. */
  datatype Kde = Kde(width: nat, logDensity: Row -> real)

  type KdeDetector = Detector<Params, Kde>

  predicate Valid(d: KdeDetector) {
    ValidParams(d.params) &&
    (d.state.Fitted? ==> d.state.model.width >= 1)
  }

  /** The constructor: parameters are validated before any detector exists. */
  function New(ps: Params): (r: Result<KdeDetector>)
    ensures r.Ok? <==> ValidParams(ps)
    ensures r.Ok? ==> Valid(r.value) && r.value.params == ps && r.value.state.Unfitted?
    ensures r.Err? ==> r.error == CheckParams(ps).error
  {
    match CheckParams(ps)
    case Fail(e) => Err(e)
    case Pass =>
      Ok(Detector(ps, Unfitted))
  }

  /** Scores computed afresh for explicit samples: shape check, then the negated log-density of each row. */
  function FreshScore(m: Kde, X: Matrix): (r: Result<seq<real>>)
    ensures r.Ok? <==> IsMatrix(X) && Width(X) == m.width
    ensures r.Err? ==> r.error == InvalidInput
    ensures r.Ok? ==> |r.value| == |X| && forall i :: 0 <= i < |X| ==> r.value[i] + m.logDensity(X[i]) == 0.0
  {
    match CheckQuery(X, m.width)
    case Fail(e) => Err(e)
    case Pass =>
      Ok(Negate(MapRows(m.logDensity, X)))
  }

  /** anomaly_score: not-fitted before fit; the cached training scores for no argument; fresh scores otherwise. */
  function AnomalyScore(d: KdeDetector, q: Query): (r: Result<seq<real>>)
    ensures d.state.Unfitted? ==> r == Err(NotFitted)
    ensures d.state.Fitted? && q.InSample? ==> r == Ok(d.state.yScore)
    ensures d.state.Fitted? && q.Samples? ==> r == FreshScore(d.state.model, q.rows)
  {
    match d.state
    case Unfitted => Err(NotFitted)
    case Fitted(m, yScore, _) =>
      match q
      case InSample => Ok(yScore)
      case Samples(X) => FreshScore(m, X)
  }

  /**
   fit: shape-check X, fit the estimator (which refuses a metric its trees do
   not know; `metrics` is the set they accept, and `score_samples` of the
   fitted estimator is the logDensity argument), score X through
   anomaly_score and read the threshold off those scores at percentile rank
   100 (1 - fpr).
   */
  function Fit(d: KdeDetector, X: Matrix, metrics: set<string>, logDensity: Row -> real, pct: Percentile): (r: Result<KdeDetector>)
    requires Valid(d)
    ensures r.Ok? <==> IsMatrix(X) && d.params.metric in metrics
    ensures !IsMatrix(X) ==> r == Err(InvalidInput)
    ensures IsMatrix(X) && d.params.metric !in metrics ==> r == Err(InvalidParameter("metric"))
    ensures r.Ok? ==> Valid(r.value) && r.value.params == d.params && r.value.state.Fitted?
    ensures r.Ok? ==> r.value.state.model == Kde(Width(X), logDensity)
    ensures r.Ok? ==> |r.value.state.yScore| == |X|
    ensures r.Ok? ==> forall i :: 0 <= i < |X| ==> r.value.state.yScore[i] == -logDensity(X[i])
    ensures r.Ok? ==> r.value.state.threshold == pct(r.value.state.yScore, PercentileRank(d.params.fpr))
  {
    match CheckArray(X)
    case Fail(e) => Err(e)
    case Pass =>
      if d.params.metric !in metrics then Err(InvalidParameter("metric"))
      else
        var m := Kde(Width(X), logDensity);
        var s := FreshScore(m, X).value;
        Ok(Detector(d.params, Fitted(m, s, pct(s, PercentileRank(d.params.fpr)))))
  }

  /** After fit, the cached scores are exactly what scoring the training set afresh gives. */
  lemma CachedScoresAreFresh(d: KdeDetector, X: Matrix, metrics: set<string>, logDensity: Row -> real, pct: Percentile)
    requires Valid(d) && Fit(d, X, metrics, logDensity, pct).Ok?
    ensures AnomalyScore(Fit(d, X, metrics, logDensity, pct).value, InSample) ==
            AnomalyScore(Fit(d, X, metrics, logDensity, pct).value, Samples(X))
  {
    var f := Fit(d, X, metrics, logDensity, pct).value;
    var s := FreshScore(f.state.model, X).value;
    assert s == f.state.yScore;
  }

  /** predict: the shared decision rule over the detector's scores. */
  function Predict(d: KdeDetector, q: Query): (r: Result<seq<int>>)
    ensures d.state.Unfitted? ==> r == Err(NotFitted)
    ensures d.state.Fitted? && AnomalyScore(d, q).Err? ==> r == Err(AnomalyScore(d, q).error)
    ensures d.state.Fitted? && AnomalyScore(d, q).Ok? ==> r.Ok?
    ensures r.Ok? ==> d.state.Fitted? && AnomalyScore(d, q).Ok? && |r.value| == |AnomalyScore(d, q).value|
    ensures r.Ok? ==> forall i :: 0 <= i < |r.value| ==>
      (r.value[i] == 1 <==> AnomalyScore(d, q).value[i] > d.state.threshold) &&
      (r.value[i] == 0 <==> AnomalyScore(d, q).value[i] <= d.state.threshold)
  {
    PredictFrom(d.state, AnomalyScore(d, q))
  }

  /** fit_predict: fit on X, then predict with X passed explicitly. */
  function FitPredict(d: KdeDetector, X: Matrix, metrics: set<string>, logDensity: Row -> real, pct: Percentile): (r: Result<seq<int>>)
    requires Valid(d)
  {
    var f :- Fit(d, X, metrics, logDensity, pct);
    Predict(f, Samples(X))
  }

  /** fit_predict labels the training set by comparing its cached scores with the fitted threshold. */
  lemma FitPredictLabelsTrainingSet(d: KdeDetector, X: Matrix, metrics: set<string>, logDensity: Row -> real, pct: Percentile)
    requires Valid(d)
    ensures FitPredict(d, X, metrics, logDensity, pct).Ok? <==> IsMatrix(X) && d.params.metric in metrics
    ensures !IsMatrix(X) ==> FitPredict(d, X, metrics, logDensity, pct) == Err(InvalidInput)
    ensures IsMatrix(X) && d.params.metric !in metrics ==> FitPredict(d, X, metrics, logDensity, pct) == Err(InvalidParameter("metric"))
    ensures IsMatrix(X) && d.params.metric in metrics ==>
      FitPredict(d, X, metrics, logDensity, pct) ==
      Ok(Decide(Fit(d, X, metrics, logDensity, pct).value.state.yScore, Fit(d, X, metrics, logDensity, pct).value.state.threshold))
  {
    if IsMatrix(X) && d.params.metric in metrics {
      CachedScoresAreFresh(d, X, metrics, logDensity, pct);
    }
  }

  /**
   With fpr = 0 the threshold is read at rank 100; for a percentile that
   returns the maximum there (numpy's does), fit_predict flags no training
   sample.
   */
  lemma ZeroFprFlagsNothing(d: KdeDetector, X: Matrix, metrics: set<string>, logDensity: Row -> real, pct: Percentile)
    requires Valid(d) && d.params.fpr == 0.0 && IsMatrix(X) && d.params.metric in metrics
    requires var s := Negate(MapRows(logDensity, X)); forall i :: 0 <= i < |s| ==> s[i] <= pct(s, 100.0)
    ensures FitPredict(d, X, metrics, logDensity, pct) == Ok(seq(|X|, _ => 0))
  {
    FitPredictLabelsTrainingSet(d, X, metrics, logDensity, pct);
    var f := Fit(d, X, metrics, logDensity, pct).value;
    assert f.state.yScore == Negate(MapRows(logDensity, X));
    DecideAboveAll(f.state.yScore, f.state.threshold);
  }

  /**
   Two detectors fitted on the same data that differ only in fpr: the one
   with the lower rate reads its threshold at a higher rank, so (for a
   percentile that grows with its rank) it flags no training sample the
   other one does not.
   */
  lemma LowerFprFlagsFewer(strict: KdeDetector, loose: KdeDetector, X: Matrix, metrics: set<string>,
                           logDensity: Row -> real, pct: Percentile)
    requires Valid(strict) && Valid(loose) && GrowsWithRank(pct)
    requires loose.params == strict.params.(fpr := loose.params.fpr) && strict.params.fpr <= loose.params.fpr
    ensures FitPredict(strict, X, metrics, logDensity, pct).Ok? <==> FitPredict(loose, X, metrics, logDensity, pct).Ok?
    ensures FitPredict(strict, X, metrics, logDensity, pct).Ok? ==>
      |FitPredict(strict, X, metrics, logDensity, pct).value| == |FitPredict(loose, X, metrics, logDensity, pct).value| == |X|
    ensures FitPredict(strict, X, metrics, logDensity, pct).Ok? ==> forall i :: 0 <= i < |X| ==>
      FitPredict(strict, X, metrics, logDensity, pct).value[i] <= FitPredict(loose, X, metrics, logDensity, pct).value[i]
  {
    FitPredictLabelsTrainingSet(strict, X, metrics, logDensity, pct);
    FitPredictLabelsTrainingSet(loose, X, metrics, logDensity, pct);
    if IsMatrix(X) && strict.params.metric in metrics {
      var s := Fit(strict, X, metrics, logDensity, pct).value;
      var l := Fit(loose, X, metrics, logDensity, pct).value;
      assert s.state.yScore == l.state.yScore;
      assert PercentileRank(loose.params.fpr) <= PercentileRank(strict.params.fpr);
      DecideMonotone(s.state.yScore, l.state.threshold, s.state.threshold);
    }
  }
}
