/**
 The detector contract shared by every outlier detector: the error taxonomy,
 the fitted/unfitted lifecycle, and the threshold decision rule of
 `DetectorMixin.predict`.
 */
module Base {

  type Row = seq<real>
  type Matrix = seq<Row>

  /** The ways a detector call can fail. */
  datatype Error =
    | NotFitted                    // sklearn's NotFittedError from check_is_fitted
    | InvalidParameter(name: string) // ValueError raised by check_params
    | InvalidInput                 // input that is not a non-empty rectangular matrix of the fitted width
    | TooFewSamples                // the neighbour index or the mixture needs more samples than it was given
    | FloatingPointInvalid         // numpy's "invalid" floating-point trap (0/0)
    | ContainsTrainingSamples      // FastABOD's translation of that trap

  datatype Option<+T> = None | Some(value: T)

  datatype Result<+T> = Ok(value: T) | Err(error: Error) {
    predicate IsFailure() { Err? }

    function PropagateFailure<U>(): Result<U>
      requires Err?
    {
      Err(error)
    }

    function Extract(): T
      requires Ok?
    {
      value
    }
  }

  /** A check that either passes or fails with an error, usable with `:-`. */
  datatype Outcome = Pass | Fail(error: Error) {
    predicate IsFailure() { Fail? }

    function PropagateFailure<U>(): Result<U>
      requires Fail?
    {
      Err(error)
    }
  }

  function Need(condition: bool, error: Error): (r: Outcome)
    ensures r.Pass? <==> condition
    ensures r.Fail? ==> r.error == error
  {
    if condition then Pass else Fail(error)
  }

  /** Fitted state exists only after a successful fit; it is replaced wholesale by a re-fit. */
  datatype State<M> =
    | Unfitted
    | Fitted(model: M, yScore: seq<real>, threshold: real)

  /** A detector: hyperparameters fixed at construction plus its lifecycle state. */
  datatype Detector<P, M> = Detector(params: P, state: State<M>)

  /** The argument of `anomaly_score`: `None` (the training set) or a sample matrix. */
  datatype Query = InSample | Samples(rows: Matrix)

  /** The shape half of sklearn's check_array: at least one sample, at least one feature, all rows equally wide. */
  predicate IsMatrix(X: Matrix) {
    |X| >= 1 && |X[0]| >= 1 && forall i :: 0 <= i < |X| ==> |X[i]| == |X[0]|
  }

  function Width(X: Matrix): nat
    requires |X| >= 1
  {
    |X[0]|
  }

  /** A matrix whose rows all have `width` entries. */
  predicate RowsOfWidth(X: Matrix, width: nat) {
    forall i :: 0 <= i < |X| ==> |X[i]| == width
  }

  /** check_array on training data. */
  function CheckArray(X: Matrix): (r: Outcome)
    ensures r.Pass? <==> IsMatrix(X)
    ensures r.Fail? ==> r.error == InvalidInput
  {
    Need(IsMatrix(X), InvalidInput)
  }

  /** check_array on query data, plus the fitted estimator's feature-count check. */
  function CheckQuery(X: Matrix, width: nat): (r: Outcome)
    ensures r.Pass? <==> IsMatrix(X) && Width(X) == width
    ensures r.Pass? ==> RowsOfWidth(X, width)
    ensures r.Fail? ==> r.error == InvalidInput
  {
    Need(IsMatrix(X) && Width(X) == width, InvalidInput)
  }

  /** The false-positive-rate constraint every detector enforces. */
  predicate FprValid(fpr: real) {
    0.0 <= fpr <= 1.0
  }

  /** The percentile rank `100 * (1 - fpr)` at which the threshold is read off the in-sample scores. */
  function PercentileRank(fpr: real): real {
    100.0 * (1.0 - fpr)
  }

  /** numpy's percentile of a vector at a rank in [0, 100]; outside this model. */
  type Percentile = (seq<real>, real) -> real

  /** scipy's chi2.fit on a sample followed by chi2.ppf at a probability; outside this model. */
  type Chi2Quantile = (seq<real>, real) -> real

  /** A percentile or quantile that never decreases as its rank (or probability) grows, as numpy's and scipy's do. */
  ghost predicate GrowsWithRank(f: (seq<real>, real) -> real) {
    forall s: seq<real>, a: real, b: real :: a <= b ==> f(s, a) <= f(s, b)
  }

  function Label(outlier: bool): int {
    if outlier then 1 else 0
  }

  /** The decision rule of predict: one 0/1 label per score. */
  function Decide(scores: seq<real>, threshold: real): (labels: seq<int>)
    ensures |labels| == |scores|
  {
    if |scores| == 0 then [] else [Label(scores[0] > threshold)] + Decide(scores[1..], threshold)
  }

  /** Label i is 1 exactly when score i lies strictly above the threshold. */
  lemma {:induction false} DecideAt(scores: seq<real>, threshold: real, i: int)
    requires 0 <= i < |scores|
    ensures Decide(scores, threshold)[i] == Label(scores[i] > threshold)
    decreases i
  {
    if i > 0 {
      DecideAt(scores[1..], threshold, i - 1);
    }
  }

  /** The whole decision vector: binary, and 1 exactly above the threshold. */
  lemma DecideSpec(scores: seq<real>, threshold: real)
    ensures forall i :: 0 <= i < |scores| ==>
      (Decide(scores, threshold)[i] == 1 <==> scores[i] > threshold) &&
      (Decide(scores, threshold)[i] == 0 <==> scores[i] <= threshold)
  {
    forall i | 0 <= i < |scores|
      ensures Decide(scores, threshold)[i] == Label(scores[i] > threshold)
    {
      DecideAt(scores, threshold, i);
    }
  }

  /** The comparison is strict: a score equal to the threshold is an inlier. */
  lemma DecideTieIsInlier(scores: seq<real>, threshold: real, i: int)
    requires 0 <= i < |scores| && scores[i] == threshold
    ensures Decide(scores, threshold)[i] == 0
  {
    DecideAt(scores, threshold, i);
  }

  /** Raising the threshold never turns an inlier into an outlier. */
  lemma DecideMonotone(scores: seq<real>, low: real, high: real)
    requires low <= high
    ensures forall i :: 0 <= i < |scores| ==> Decide(scores, high)[i] <= Decide(scores, low)[i]
  {
    DecideSpec(scores, low);
    DecideSpec(scores, high);
  }

  /** A threshold at or above every score flags nothing. */
  lemma DecideAboveAll(scores: seq<real>, threshold: real)
    requires forall i :: 0 <= i < |scores| ==> scores[i] <= threshold
    ensures Decide(scores, threshold) == seq(|scores|, _ => 0)
  {
    DecideSpec(scores, threshold);
  }

  /**
   predict: the threshold must exist (check_is_fitted on threshold_), then the
   detector's own scores are compared strictly against it.
   */
  function PredictFrom<M>(st: State<M>, scores: Result<seq<real>>): (r: Result<seq<int>>)
    ensures st.Unfitted? ==> r == Err(NotFitted)
    ensures st.Fitted? && scores.Err? ==> r == Err(scores.error)
    ensures st.Fitted? && scores.Ok? ==> r.Ok?
    ensures r.Ok? ==> st.Fitted? && scores.Ok? && |r.value| == |scores.value|
    ensures r.Ok? ==> forall i :: 0 <= i < |r.value| ==>
      (r.value[i] == 1 <==> scores.value[i] > st.threshold) &&
      (r.value[i] == 0 <==> scores.value[i] <= st.threshold)
  {
    match st
    case Unfitted => Err(NotFitted)
    case Fitted(_, _, threshold) =>
      match scores
      case Err(e) => Err(e)
      case Ok(s) => DecideSpec(s, threshold); Ok(Decide(s, threshold))
  }

  /** Negation of a score vector, used by every family whose native statistic falls as anomalousness rises. */
  function Negate(s: seq<real>): (r: seq<real>)
    ensures |r| == |s|
    ensures forall i :: 0 <= i < |s| ==> r[i] + s[i] == 0.0
  {
    seq(|s|, i requires 0 <= i < |s| => -s[i])
  }

  /** One score per row from a per-row scoring function. */
  function MapRows(f: Row -> real, X: Matrix): (r: seq<real>)
    ensures |r| == |X|
    ensures forall i :: 0 <= i < |X| ==> r[i] == f(X[i])
  {
    seq(|X|, i requires 0 <= i < |X| => f(X[i]))
  }
}
