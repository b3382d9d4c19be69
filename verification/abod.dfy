/**
 FastABOD, the fast angle-based outlier detector: for each query point, the
 population variance of (pa.pb)/(pa.pa)/(pb.pb) over all unordered pairs of its
 neighbour-difference vectors, negated so that higher means more anomalous.
 */
module AngleBased {
  import opened Base
  import opened Vectors

  /** The constructor's hyperparameters (metric_params is passed through to the index and left out). */
  datatype Params = Params(fpr: real, metric: string, nJobs: int, nNeighbors: int, p: int)

  predicate ValidParams(ps: Params) {
    FprValid(ps.fpr) && ps.nNeighbors > 1 && ps.p >= 1
  }

  /** check_params: the three checks in source order, the first failing one reported. */
  function CheckParams(ps: Params): (r: Outcome)
    ensures r.Pass? <==> ValidParams(ps)
    ensures !FprValid(ps.fpr) ==> r == Fail(InvalidParameter("fpr"))
    ensures FprValid(ps.fpr) && ps.nNeighbors <= 1 ==> r == Fail(InvalidParameter("n_neighbors"))
    ensures FprValid(ps.fpr) && ps.nNeighbors > 1 && ps.p < 1 ==> r == Fail(InvalidParameter("p"))
  {
    if ps.fpr < 0.0 || 1.0 < ps.fpr then Fail(InvalidParameter("fpr"))
    else if ps.nNeighbors <= 1 then Fail(InvalidParameter("n_neighbors"))
    else if ps.p < 1 then Fail(InvalidParameter("p"))
    else Pass
  }

  /** A FastABOD detector; its fitted model is the training matrix the neighbour index stores (`_knn._fit_X`). */
  type FastAbod = Detector<Params, Matrix>

  /** What every constructed or fitted detector satisfies. */
  predicate Valid(d: FastAbod) {
    ValidParams(d.params) && (d.state.Fitted? ==> IsMatrix(d.state.model))
  }

  /** The constructor: parameters are validated before any detector exists. */
  function New(ps: Params): (r: Result<FastAbod>)
    ensures r.Ok? <==> ValidParams(ps)
    ensures r.Ok? ==> Valid(r.value) && r.value.params == ps && r.value.state.Unfitted?
    ensures r.Err? ==> r.error == CheckParams(ps).error
  {
    match CheckParams(ps)
    case Fail(e) => Err(e)
    case Pass =>
      Ok(Detector(ps, Unfitted))
  }

  // ---------------------------------------------------------------------------
  // What the neighbour index and joblib hand back for one scoring call

  /**
   The index lists the neighbours of each query row, and joblib cuts the
   query rows into contiguous slices given by increasing boundaries.
   */
  datatype Lookup = Lookup(neighbors: seq<seq<nat>>, slices: seq<nat>)

  /** One list of exactly k training-row indices per query row. */
  predicate NeighborLists(ind: seq<seq<nat>>, nRows: nat, nFit: nat, k: int) {
    |ind| == nRows &&
    forall i :: 0 <= i < nRows ==> |ind[i]| == k && forall j :: 0 <= j < k ==> ind[i][j] < nFit
  }

  /** Strictly increasing boundaries, none beyond n. */
  predicate Chain(bounds: seq<nat>, n: nat) {
    (forall i :: 0 <= i < |bounds| ==> bounds[i] <= n) &&
    (forall i, j :: 0 <= i < j < |bounds| ==> bounds[i] < bounds[j])
  }

  /** The rows 0..n cut into non-empty contiguous slices, in order. */
  predicate IsPartition(bounds: seq<nat>, n: nat) {
    |bounds| >= 2 && bounds[0] == 0 && bounds[|bounds| - 1] == n && Chain(bounds, n)
  }

  predicate LookupFor(fitX: Matrix, k: int, nRows: nat, lk: Lookup) {
    NeighborLists(lk.neighbors, nRows, |fitX|, k) && (nRows == 0 || IsPartition(lk.slices, nRows))
  }

  // ---------------------------------------------------------------------------
  // _abof

  /** `fit_X[ind_p] - p`: the difference vectors from a query point to its neighbours. */
  function Differences(fitX: Matrix, indP: seq<nat>, p: Row): (D: seq<Row>)
    requires forall j :: 0 <= j < |indP| ==> indP[j] < |fitX| && |fitX[indP[j]]| == |p|
    ensures |D| == |indP|
    ensures forall j :: 0 <= j < |indP| ==> |D[j]| == |p| && D[j] == Sub(fitX[indP[j]], p)
  {
    seq(|indP|, j requires 0 <= j < |indP| => Sub(fitX[indP[j]], p))
  }

  predicate SameWidth(D: seq<Row>) {
    forall i :: 0 <= i < |D| ==> |D[i]| == |D[0]|
  }

  /** `combinations(D, 2)`: every pair (D[i], D[j]) with i < j, in lexicographic order of (i, j). */
  function Pairs(D: seq<Row>): (P: seq<(Row, Row)>)
    ensures 2 * |P| == |D| * (|D| - 1)
  {
    if |D| == 0 then []
    else
      var n := |D|;
      var rest := Pairs(D[1..]);
      assert 2 * |rest| == (n - 1) * (n - 2);
      assert (n - 1) * (n - 2) + 2 * (n - 1) == n * (n - 1);
      seq(n - 1, j requires 0 <= j < n - 1 => (D[0], D[j + 1])) + rest
  }

  /**
   The pair i < j sits at position i (2n - i - 1) / 2 + (j - i - 1) of
   Pairs(D), n = |D|: the lexicographic position `combinations` gives it.
   With the count, this fixes every entry, repeated vectors included.
   */
  lemma {:induction false} PairIndex(D: seq<Row>, i: nat, j: nat) returns (t: nat)
    requires i < j < |D|
    ensures 2 * t == i * (2 * |D| - i - 1) + 2 * (j - i - 1)
    ensures t < |Pairs(D)| && Pairs(D)[t] == (D[i], D[j])
    decreases i
  {
    if i == 0 {
      t := j - 1;
    } else {
      var n := |D|;
      var t' := PairIndex(D[1..], i - 1, j - 1);
      t := n - 1 + t';
      assert (i - 1) * (2 * (n - 1) - (i - 1) - 1) + 2 * (n - 1) == i * (2 * n - i - 1) by {
        assert (i - 1) * (2 * n - i - 2) == i * (2 * n - i - 2) - (2 * n - i - 2);
        assert i * (2 * n - i - 1) == i * (2 * n - i - 2) + i;
      }
    }
  }

  /** Every element of Pairs(D) is some pair i < j. */
  lemma {:induction false} PairOrigin(D: seq<Row>, t: nat) returns (i: nat, j: nat)
    requires t < |Pairs(D)|
    ensures i < j < |D| && Pairs(D)[t] == (D[i], D[j])
    decreases |D|
  {
    if t < |D| - 1 {
      i, j := 0, t + 1;
    } else {
      var i', j' := PairOrigin(D[1..], t - (|D| - 1));
      i, j := i' + 1, j' + 1;
    }
  }

  /** One pair's term; numpy traps when a denominator vanishes. */
  function Term(a: Row, b: Row): (r: Result<real>)
    requires |a| == |b|
    ensures r.Err? <==> IsZero(a) || IsZero(b)
    ensures r.Err? ==> r.error == FloatingPointInvalid
  {
    DotSelfZero(a);
    DotSelfZero(b);
    if Dot(a, a) == 0.0 || Dot(b, b) == 0.0 then Err(FloatingPointInvalid)
    else Ok(Dot(a, b) / Dot(a, a) / Dot(b, b))
  }

  /**
   Each vanishing denominator meets a vanishing numerator, so the trap that
   fires is numpy's "invalid" (0/0) one, the only one the errstate raises on.
   */
  lemma ZeroDenominatorIsInvalid(a: Row, b: Row)
    requires |a| == |b|
    ensures Dot(a, a) == 0.0 ==> Dot(a, b) == 0.0
    ensures Dot(a, a) != 0.0 && Dot(b, b) == 0.0 ==> Dot(a, b) / Dot(a, a) == 0.0
  {
    DotSelfZero(a);
    DotSelfZero(b);
    if Dot(a, a) == 0.0 {
      DotZeroLeft(a, b);
    }
    if Dot(b, b) == 0.0 {
      DotZeroRight(a, b);
    }
  }

  predicate PairsWellFormed(P: seq<(Row, Row)>) {
    forall t :: 0 <= t < |P| ==> |P[t].0| == |P[t].1|
  }

  /** The list of pair terms, built left to right; the first trap aborts it. */
  function Terms(P: seq<(Row, Row)>): (r: Result<seq<real>>)
    requires PairsWellFormed(P)
    ensures r.Ok? ==> |r.value| == |P|
    ensures r.Err? ==> r.error == FloatingPointInvalid
  {
    if |P| == 0 then Ok([])
    else
      var x :- Term(P[0].0, P[0].1);
      var rest :- Terms(P[1..]);
      Ok([x] + rest)
  }

  /** The term list fails exactly when one of its pairs fails. */
  lemma {:induction false} TermsFail(P: seq<(Row, Row)>)
    requires PairsWellFormed(P)
    ensures Terms(P).Err? <==> exists t :: 0 <= t < |P| && Term(P[t].0, P[t].1).Err?
  {
    if |P| > 0 {
      TermsFail(P[1..]);
      if Term(P[0].0, P[0].1).Ok? && Terms(P[1..]).Err? {
        var t :| 0 <= t < |P[1..]| && Term(P[1..][t].0, P[1..][t].1).Err?;
        assert P[t + 1] == P[1..][t];
      }
      if Terms(P).Ok? {
        forall t | 0 <= t < |P| ensures Term(P[t].0, P[t].1).Ok? {
          if t > 0 { assert P[t] == P[1..][t - 1]; }
        }
      }
    }
  }

  lemma PairsOfSameWidth(D: seq<Row>)
    requires SameWidth(D)
    ensures PairsWellFormed(Pairs(D))
  {
    forall t | 0 <= t < |Pairs(D)| ensures |Pairs(D)[t].0| == |Pairs(D)[t].1| {
      var i, j := PairOrigin(D, t);
    }
  }

  /** The factor of one query point: np.var of its pair terms. */
  function RowFactor(D: seq<Row>): (r: Result<real>)
    requires |D| >= 2 && SameWidth(D)
    ensures r.Ok? ==> r.value >= 0.0
    ensures r.Err? ==> r.error == FloatingPointInvalid
  {
    PairsOfSameWidth(D);
    var ts :- Terms(Pairs(D));
    VarianceNonneg(ts);
    Ok(Variance(ts))
  }

  /** A point's factor fails exactly when one of its difference vectors is zero. */
  lemma RowFactorFails(D: seq<Row>)
    requires |D| >= 2 && SameWidth(D)
    ensures RowFactor(D).Err? <==> exists i :: 0 <= i < |D| && IsZero(D[i])
  {
    PairsOfSameWidth(D);
    var P := Pairs(D);
    TermsFail(P);
    if RowFactor(D).Err? {
      var t :| 0 <= t < |P| && Term(P[t].0, P[t].1).Err?;
      var i, j := PairOrigin(D, t);
      assert IsZero(D[i]) || IsZero(D[j]);
    }
    if i :| 0 <= i < |D| && IsZero(D[i]) {
      var t;
      if i == 0 {
        t := PairIndex(D, 0, 1);
      } else {
        t := PairIndex(D, 0, i);
      }
      assert Term(P[t].0, P[t].1).Err?;
    }
  }

  /** Difference vectors are zero exactly where the neighbour equals the query point. */
  lemma SubZero(a: Row, b: Row)
    requires |a| == |b|
    ensures IsZero(Sub(a, b)) <==> a == b
  {
    if IsZero(Sub(a, b)) {
      assert forall i :: 0 <= i < |a| ==> a[i] == b[i] by {
        forall i | 0 <= i < |a| ensures a[i] == b[i] {
          assert Sub(a, b)[i] == 0.0;
        }
      }
    }
  }

  /** Shape of an `_abof` call: rows as wide as the training rows, k >= 2 valid neighbours per row. */
  predicate Batch(X: Matrix, ind: seq<seq<nat>>, fitX: Matrix, k: int) {
    k >= 2 && IsMatrix(fitX) && RowsOfWidth(X, Width(fitX)) && NeighborLists(ind, |X|, |fitX|, k)
  }

  function RowDifferences(X: Matrix, ind: seq<seq<nat>>, fitX: Matrix, k: int, i: nat): (D: seq<Row>)
    requires Batch(X, ind, fitX, k) && i < |X|
    ensures |D| == k && SameWidth(D)
  {
    Differences(fitX, ind[i], X[i])
  }

  /** `_abof`: one non-negative factor per row of the slice, in row order. */
  function Abof(X: Matrix, ind: seq<seq<nat>>, fitX: Matrix, k: int): (r: Result<seq<real>>)
    requires Batch(X, ind, fitX, k)
    ensures r.Ok? ==> |r.value| == |X| && forall i :: 0 <= i < |X| ==> r.value[i] >= 0.0
    ensures r.Ok? ==> forall i :: 0 <= i < |X| ==> RowFactor(RowDifferences(X, ind, fitX, k, i)) == Ok(r.value[i])
    ensures r.Err? ==> r.error == FloatingPointInvalid
  {
    if |X| == 0 then Ok([])
    else
      assert Batch(X[1..], ind[1..], fitX, k);
      var f :- RowFactor(RowDifferences(X, ind, fitX, k, 0));
      var rest :- Abof(X[1..], ind[1..], fitX, k);
      Ok([f] + rest)
  }

  /** Some query row coincides with one of the training points listed as its neighbours. */
  predicate Overlaps(X: Matrix, ind: seq<seq<nat>>, fitX: Matrix)
    requires |ind| == |X|
    requires forall i, j :: 0 <= i < |ind| && 0 <= j < |ind[i]| ==> ind[i][j] < |fitX|
  {
    exists i, j :: 0 <= i < |X| && 0 <= j < |ind[i]| && fitX[ind[i][j]] == X[i]
  }

  lemma RowOverlaps(X: Matrix, ind: seq<seq<nat>>, fitX: Matrix, k: int, i: nat)
    requires Batch(X, ind, fitX, k) && i < |X|
    ensures RowFactor(RowDifferences(X, ind, fitX, k, i)).Err? <==>
      exists j :: 0 <= j < k && fitX[ind[i][j]] == X[i]
  {
    var D := RowDifferences(X, ind, fitX, k, i);
    RowFactorFails(D);
    forall j | 0 <= j < k ensures IsZero(D[j]) <==> fitX[ind[i][j]] == X[i] {
      SubZero(fitX[ind[i][j]], X[i]);
    }
  }

  /** Some query row overlaps exactly when the first one does or a later one does. */
  lemma OverlapsCons(X: Matrix, ind: seq<seq<nat>>, fitX: Matrix, k: int)
    requires Batch(X, ind, fitX, k) && |X| > 0
    ensures Batch(X[1..], ind[1..], fitX, k)
    ensures Overlaps(X, ind, fitX) <==>
      (exists j :: 0 <= j < k && fitX[ind[0][j]] == X[0]) || Overlaps(X[1..], ind[1..], fitX)
  {
    assert Batch(X[1..], ind[1..], fitX, k);
    if Overlaps(X[1..], ind[1..], fitX) {
      var i, j :| 0 <= i < |X[1..]| && 0 <= j < |ind[1..][i]| && fitX[ind[1..][i][j]] == X[1..][i];
      assert fitX[ind[i + 1][j]] == X[i + 1];
    }
    if Overlaps(X, ind, fitX) {
      var i, j :| 0 <= i < |X| && 0 <= j < |ind[i]| && fitX[ind[i][j]] == X[i];
      if i > 0 {
        assert fitX[ind[1..][i - 1][j]] == X[1..][i - 1];
      }
    }
  }

  /** `_abof` fails exactly when some query row coincides with one of its neighbours. */
  lemma {:induction false} AbofFails(X: Matrix, ind: seq<seq<nat>>, fitX: Matrix, k: int)
    requires Batch(X, ind, fitX, k)
    ensures Abof(X, ind, fitX, k).Err? <==> Overlaps(X, ind, fitX)
  {
    if |X| > 0 {
      OverlapsCons(X, ind, fitX, k);
      AbofCons(X, ind, fitX, k);
      AbofFails(X[1..], ind[1..], fitX, k);
      RowOverlaps(X, ind, fitX, k, 0);
    }
  }

  /** Two result vectors concatenated, the first failure winning. */
  function Join(a: Result<seq<real>>, b: Result<seq<real>>): Result<seq<real>> {
    match a
    case Err(e) => Err(e)
    case Ok(x) => (match b case Err(e) => Err(e) case Ok(y) => Ok(x + y))
  }

  lemma BatchAppend(X: Matrix, Y: Matrix, ix: seq<seq<nat>>, iy: seq<seq<nat>>, fitX: Matrix, k: int)
    requires Batch(X, ix, fitX, k) && Batch(Y, iy, fitX, k)
    ensures Batch(X + Y, ix + iy, fitX, k)
  {
    var Z, iz := X + Y, ix + iy;
    forall i | 0 <= i < |Z| ensures |Z[i]| == Width(fitX) && |iz[i]| == k && forall j :: 0 <= j < k ==> iz[i][j] < |fitX| {
      if i >= |X| {
        assert Z[i] == Y[i - |X|] && iz[i] == iy[i - |X|];
      }
    }
  }

  /** `_abof` on a non-empty slice: the first row's factor, then the rest. */
  lemma AbofCons(X: Matrix, ind: seq<seq<nat>>, fitX: Matrix, k: int)
    requires Batch(X, ind, fitX, k) && |X| > 0
    ensures Batch(X[1..], ind[1..], fitX, k)
    ensures Abof(X, ind, fitX, k) ==
      Join(match RowFactor(RowDifferences(X, ind, fitX, k, 0)) case Err(e) => Err(e) case Ok(f) => Ok([f]),
           Abof(X[1..], ind[1..], fitX, k))
  {
    assert Batch(X[1..], ind[1..], fitX, k);
  }

  lemma JoinAssociative(a: Result<seq<real>>, b: Result<seq<real>>, c: Result<seq<real>>)
    ensures Join(Join(a, b), c) == Join(a, Join(b, c))
  {
    if a.Ok? && b.Ok? && c.Ok? {
      assert (a.value + b.value) + c.value == a.value + (b.value + c.value);
    }
  }

  /** Running `_abof` on two consecutive blocks of rows and concatenating equals running it on both at once. */
  lemma {:induction false} AbofAppend(X: Matrix, Y: Matrix, ix: seq<seq<nat>>, iy: seq<seq<nat>>, fitX: Matrix, k: int)
    requires Batch(X, ix, fitX, k) && Batch(Y, iy, fitX, k)
    ensures Batch(X + Y, ix + iy, fitX, k)
    ensures Abof(X + Y, ix + iy, fitX, k) == Join(Abof(X, ix, fitX, k), Abof(Y, iy, fitX, k))
    decreases |X|
  {
    BatchAppend(X, Y, ix, iy, fitX, k);
    var b := Abof(Y, iy, fitX, k);
    if |X| == 0 {
      assert X + Y == Y && ix + iy == iy;
      if b.Ok? {
        assert [] + b.value == b.value;
      }
    } else {
      var Z, iz := X + Y, ix + iy;
      AbofCons(X, ix, fitX, k);
      AbofCons(Z, iz, fitX, k);
      TailOfAppend(X, Y);
      TailOfAppend(ix, iy);
      AbofAppend(X[1..], Y, ix[1..], iy, fitX, k);
      var head := match RowFactor(RowDifferences(X, ix, fitX, k, 0)) case Err(e) => Err(e) case Ok(f) => Ok([f]);
      JoinAssociative(head, Abof(X[1..], ix[1..], fitX, k), b);
    }
  }

  lemma TailOfAppend<T>(A: seq<T>, B: seq<T>)
    requires |A| > 0
    ensures (A + B)[0] == A[0] && (A + B)[1..] == A[1..] + B
  {
  }

  lemma BatchSlice(X: Matrix, ind: seq<seq<nat>>, fitX: Matrix, k: int, lo: nat, hi: nat)
    requires Batch(X, ind, fitX, k) && lo <= hi <= |X|
    ensures Batch(X[lo..hi], ind[lo..hi], fitX, k)
  {
  }

  /** The joblib fan-out: `_abof` on each slice in order, results concatenated. */
  function ScoreSlices(X: Matrix, ind: seq<seq<nat>>, fitX: Matrix, k: int, bounds: seq<nat>): (r: Result<seq<real>>)
    requires Batch(X, ind, fitX, k) && Chain(bounds, |X|)
    decreases |bounds|
  {
    if |bounds| < 2 then Ok([])
    else
      BatchSlice(X, ind, fitX, k, bounds[0], bounds[1]);
      var part :- Abof(X[bounds[0]..bounds[1]], ind[bounds[0]..bounds[1]], fitX, k);
      var rest :- ScoreSlices(X, ind, fitX, k, bounds[1..]);
      Ok(part + rest)
  }

  lemma ChainTail(bounds: seq<nat>, n: nat)
    requires Chain(bounds, n) && |bounds| >= 2
    ensures Chain(bounds[1..], n)
    ensures bounds[0] < bounds[1] && bounds[1..][0] == bounds[1]
    ensures bounds[1..][|bounds[1..]| - 1] == bounds[|bounds| - 1]
  {
  }

  lemma SplitSlice<T>(s: seq<T>, lo: nat, mid: nat, hi: nat)
    requires lo <= mid <= hi <= |s|
    ensures s[lo..mid] + s[mid..hi] == s[lo..hi]
  {
  }

  /** ScoreSlices on at least two boundaries: the first slice, then the rest. */
  lemma ScoreSlicesCons(X: Matrix, ind: seq<seq<nat>>, fitX: Matrix, k: int, bounds: seq<nat>)
    requires Batch(X, ind, fitX, k) && Chain(bounds, |X|) && |bounds| >= 2
    ensures bounds[0] <= bounds[1] <= |X| && Chain(bounds[1..], |X|)
    ensures Batch(X[bounds[0]..bounds[1]], ind[bounds[0]..bounds[1]], fitX, k)
    ensures ScoreSlices(X, ind, fitX, k, bounds) ==
      Join(Abof(X[bounds[0]..bounds[1]], ind[bounds[0]..bounds[1]], fitX, k), ScoreSlices(X, ind, fitX, k, bounds[1..]))
  {
    ChainTail(bounds, |X|);
    BatchSlice(X, ind, fitX, k, bounds[0], bounds[1]);
  }

  lemma {:induction false} ScoreSlicesSpan(X: Matrix, ind: seq<seq<nat>>, fitX: Matrix, k: int, bounds: seq<nat>)
    requires Batch(X, ind, fitX, k) && Chain(bounds, |X|) && |bounds| >= 1
    ensures bounds[0] <= bounds[|bounds| - 1] <= |X|
    ensures Batch(X[bounds[0]..bounds[|bounds| - 1]], ind[bounds[0]..bounds[|bounds| - 1]], fitX, k)
    ensures ScoreSlices(X, ind, fitX, k, bounds) ==
      Abof(X[bounds[0]..bounds[|bounds| - 1]], ind[bounds[0]..bounds[|bounds| - 1]], fitX, k)
    decreases |bounds|
  {
    var lo, hi := bounds[0], bounds[|bounds| - 1];
    if |bounds| == 1 {
      assert X[lo..hi] == [];
    } else {
      var mid := bounds[1];
      ScoreSlicesCons(X, ind, fitX, k, bounds);
      ScoreSlicesSpan(X, ind, fitX, k, bounds[1..]);
      BatchSlice(X, ind, fitX, k, lo, mid);
      BatchSlice(X, ind, fitX, k, mid, hi);
      AbofAppend(X[lo..mid], X[mid..hi], ind[lo..mid], ind[mid..hi], fitX, k);
      SplitSlice(X, lo, mid, hi);
      SplitSlice(ind, lo, mid, hi);
    }
  }

  /** Slicing the rows into any in-order contiguous partition and concatenating changes nothing. */
  lemma ScoreSlicesAgree(X: Matrix, ind: seq<seq<nat>>, fitX: Matrix, k: int, bounds: seq<nat>)
    requires Batch(X, ind, fitX, k) && IsPartition(bounds, |X|)
    ensures ScoreSlices(X, ind, fitX, k, bounds) == Abof(X, ind, fitX, k)
  {
    ScoreSlicesSpan(X, ind, fitX, k, bounds);
    assert X[0..|X|] == X && ind[0..|X|] == ind;
  }

  // ---------------------------------------------------------------------------
  // anomaly_score, fit, predict, fit_predict

  function QueryRows(fitX: Matrix, q: Query): Matrix {
    match q
    case InSample => fitX
    case Samples(X) => X
  }

  /**
   The index accepts the query: the shape check passes, and the index holds
   enough samples (without a query each point is left out of its own list,
   hence k < n there and k <= n with one).
   */
  predicate QueryAccepted(ps: Params, fitX: Matrix, q: Query)
    requires IsMatrix(fitX)
  {
    match q
    case InSample => ps.nNeighbors < |fitX|
    case Samples(X) => IsMatrix(X) && Width(X) == Width(fitX) && ps.nNeighbors <= |fitX|
  }

  /** joblib's Parallel refuses n_jobs = 0; any other value names a number of workers (negative ones count back from the cores). */
  predicate JobsValid(ps: Params) {
    ps.nJobs != 0
  }

  /** The query is usable: the index accepts it and the workers can be started. */
  predicate Answerable(ps: Params, fitX: Matrix, q: Query)
    requires IsMatrix(fitX)
  {
    QueryAccepted(ps, fitX, q) && JobsValid(ps)
  }

  /** check_array on the query, then the index's own sample-count check in kneighbors. */
  function QueriedRows(ps: Params, fitX: Matrix, q: Query): (r: Result<Matrix>)
    requires IsMatrix(fitX)
    ensures r.Ok? <==> QueryAccepted(ps, fitX, q)
    ensures r.Ok? ==> r.value == QueryRows(fitX, q)
    ensures q.Samples? && !(IsMatrix(q.rows) && Width(q.rows) == Width(fitX)) ==> r == Err(InvalidInput)
    ensures r.Err? ==> r.error == InvalidInput || r.error == TooFewSamples
  {
    match q
    case InSample => if ps.nNeighbors >= |fitX| then Err(TooFewSamples) else Ok(fitX)
    case Samples(Y) =>
      if !(IsMatrix(Y) && Width(Y) == Width(fitX)) then Err(InvalidInput)
      else if ps.nNeighbors > |fitX| then Err(TooFewSamples)
      else Ok(Y)
  }

  /**
   The body of anomaly_score once the index exists: query the index, start
   the workers, run `_abof` over the slices, translate the trap, negate.
   */
  function Score(ps: Params, fitX: Matrix, q: Query, lk: Lookup): (r: Result<seq<real>>)
    requires ValidParams(ps) && IsMatrix(fitX)
    requires LookupFor(fitX, ps.nNeighbors, |QueryRows(fitX, q)|, lk)
    ensures r.Ok? ==> Answerable(ps, fitX, q)
    ensures r.Ok? ==> |r.value| == |QueryRows(fitX, q)|
    ensures r.Ok? ==> forall i :: 0 <= i < |r.value| ==> r.value[i] <= 0.0
    ensures r.Ok? ==> Batch(QueryRows(fitX, q), lk.neighbors, fitX, ps.nNeighbors)
    ensures r.Ok? ==> Abof(QueryRows(fitX, q), lk.neighbors, fitX, ps.nNeighbors).Ok?
    ensures r.Ok? ==> r.value == Negate(Abof(QueryRows(fitX, q), lk.neighbors, fitX, ps.nNeighbors).value)
    ensures q.Samples? && !(IsMatrix(q.rows) && Width(q.rows) == Width(fitX)) ==> r == Err(InvalidInput)
    ensures QueryAccepted(ps, fitX, q) && !JobsValid(ps) ==> r == Err(InvalidParameter("n_jobs"))
    ensures Answerable(ps, fitX, q) && r.Err? ==> r.error == ContainsTrainingSamples
    ensures !Answerable(ps, fitX, q) ==> r.Err?
  {
    var X :- QueriedRows(ps, fitX, q);
    if !JobsValid(ps) then Err(InvalidParameter("n_jobs"))
    else
      assert Batch(X, lk.neighbors, fitX, ps.nNeighbors);
      match ScoreSlices(X, lk.neighbors, fitX, ps.nNeighbors, lk.slices)
      case Err(_) => Err(ContainsTrainingSamples)
      case Ok(s) =>
        ScoreSlicesAgree(X, lk.neighbors, fitX, ps.nNeighbors, lk.slices);
        Ok(Negate(s))
  }

  /**
   The same body as written: `gen_even_slices(n_samples, n_jobs)` refuses any
   n_jobs below 1, including the -1 the constructor documents as "all cores".
   */
  function ScoreAsWritten(ps: Params, fitX: Matrix, q: Query, lk: Lookup): (r: Result<seq<real>>)
    requires ValidParams(ps) && IsMatrix(fitX)
    requires LookupFor(fitX, ps.nNeighbors, |QueryRows(fitX, q)|, lk)
    ensures ps.nJobs >= 1 ==> r == Score(ps, fitX, q, lk)
    ensures ps.nJobs < 1 ==> r.Err?
    ensures QueryAccepted(ps, fitX, q) && ps.nJobs < 1 ==> r == Err(InvalidParameter("n_jobs"))
  {
    var X :- QueriedRows(ps, fitX, q);
    if ps.nJobs < 1 then Err(InvalidParameter("n_jobs")) else Score(ps, fitX, q, lk)
  }

  /**
   With n_jobs = -1 the scoring as written always refuses, while the corrected
   scoring succeeds exactly when no query row coincides with a neighbour.
   */
  lemma AllCoresRejectedAsWritten(ps: Params, fitX: Matrix, q: Query, lk: Lookup)
    requires ValidParams(ps) && IsMatrix(fitX)
    requires LookupFor(fitX, ps.nNeighbors, |QueryRows(fitX, q)|, lk)
    requires ps.nJobs == -1 && QueryAccepted(ps, fitX, q)
    ensures ScoreAsWritten(ps, fitX, q, lk) == Err(InvalidParameter("n_jobs"))
    ensures Batch(QueryRows(fitX, q), lk.neighbors, fitX, ps.nNeighbors)
    ensures Score(ps, fitX, q, lk).Ok? <==> !Overlaps(QueryRows(fitX, q), lk.neighbors, fitX)
  {
    var X := QueryRows(fitX, q);
    assert Batch(X, lk.neighbors, fitX, ps.nNeighbors);
    ScoreSlicesAgree(X, lk.neighbors, fitX, ps.nNeighbors, lk.slices);
    AbofFails(X, lk.neighbors, fitX, ps.nNeighbors);
  }

  /** anomaly_score: not-fitted before fit, otherwise Score against the stored training rows. */
  function AnomalyScore(d: FastAbod, q: Query, lk: Lookup): (r: Result<seq<real>>)
    requires Valid(d)
    requires d.state.Fitted? ==> LookupFor(d.state.model, d.params.nNeighbors, |QueryRows(d.state.model, q)|, lk)
    ensures d.state.Unfitted? ==> r == Err(NotFitted)
    ensures r.Ok? ==> d.state.Fitted? && |r.value| == |QueryRows(d.state.model, q)|
    ensures r.Ok? ==> forall i :: 0 <= i < |r.value| ==> r.value[i] <= 0.0
    ensures r.Ok? ==> Batch(QueryRows(d.state.model, q), lk.neighbors, d.state.model, d.params.nNeighbors)
    ensures r.Ok? ==> Abof(QueryRows(d.state.model, q), lk.neighbors, d.state.model, d.params.nNeighbors).Ok?
    ensures r.Ok? ==> r.value == Negate(Abof(QueryRows(d.state.model, q), lk.neighbors, d.state.model, d.params.nNeighbors).value)
  {
    match d.state
    case Unfitted => Err(NotFitted)
    case Fitted(fitX, _, _) => Score(d.params, fitX, q, lk)
  }

  /** Scoring succeeds on an answerable query exactly when no query row coincides with one of its neighbours. */
  lemma AnomalyScoreFails(d: FastAbod, q: Query, lk: Lookup)
    requires Valid(d) && d.state.Fitted?
    requires LookupFor(d.state.model, d.params.nNeighbors, |QueryRows(d.state.model, q)|, lk)
    requires Answerable(d.params, d.state.model, q)
    ensures AnomalyScore(d, q, lk).Err? <==>
      Overlaps(QueryRows(d.state.model, q), lk.neighbors, d.state.model)
    ensures AnomalyScore(d, q, lk).Err? ==> AnomalyScore(d, q, lk).error == ContainsTrainingSamples
  {
    var fitX, k := d.state.model, d.params.nNeighbors;
    var X := QueryRows(fitX, q);
    assert Batch(X, lk.neighbors, fitX, k);
    ScoreSlicesAgree(X, lk.neighbors, fitX, k, lk.slices);
    AbofFails(X, lk.neighbors, fitX, k);
  }

  /** The score vector does not depend on how the rows were sliced among workers. */
  lemma AnomalyScoreIgnoresSlicing(d: FastAbod, q: Query, ind: seq<seq<nat>>, s1: seq<nat>, s2: seq<nat>)
    requires Valid(d) && d.state.Fitted?
    requires LookupFor(d.state.model, d.params.nNeighbors, |QueryRows(d.state.model, q)|, Lookup(ind, s1))
    requires LookupFor(d.state.model, d.params.nNeighbors, |QueryRows(d.state.model, q)|, Lookup(ind, s2))
    ensures AnomalyScore(d, q, Lookup(ind, s1)) == AnomalyScore(d, q, Lookup(ind, s2))
  {
    var fitX, k := d.state.model, d.params.nNeighbors;
    var X := QueryRows(fitX, q);
    if Answerable(d.params, fitX, q) {
      assert Batch(X, ind, fitX, k);
      ScoreSlicesAgree(X, ind, fitX, k, s1);
      ScoreSlicesAgree(X, ind, fitX, k, s2);
    }
  }

  /**
   fit: shape-check X, build the index on it (which refuses a metric it does
   not know; `metrics` is the set it accepts), score the training set through
   the self-excluding path, and read the threshold off those scores.
   */
  function Fit(d: FastAbod, X: Matrix, metrics: set<string>, lk: Lookup, pct: Percentile): (r: Result<FastAbod>)
    requires Valid(d)
    requires LookupFor(X, d.params.nNeighbors, |X|, lk)
    ensures !IsMatrix(X) ==> r == Err(InvalidInput)
    ensures IsMatrix(X) && d.params.metric !in metrics ==> r == Err(InvalidParameter("metric"))
    ensures IsMatrix(X) && d.params.metric in metrics && d.params.nNeighbors >= |X| ==> r == Err(TooFewSamples)
    ensures IsMatrix(X) && d.params.metric in metrics && d.params.nNeighbors < |X| && !JobsValid(d.params) ==>
      r == Err(InvalidParameter("n_jobs"))
    ensures r.Ok? ==> d.params.metric in metrics && JobsValid(d.params)
    ensures r.Ok? ==> Valid(r.value) && r.value.params == d.params && r.value.state.Fitted?
    ensures r.Ok? ==> r.value.state.model == X && |r.value.state.yScore| == |X|
    ensures r.Ok? ==> forall i :: 0 <= i < |X| ==> r.value.state.yScore[i] <= 0.0
    ensures r.Ok? ==> r.value.state.threshold == pct(r.value.state.yScore, PercentileRank(d.params.fpr))
  {
    match CheckArray(X)
    case Fail(e) => Err(e)
    case Pass =>
      if d.params.metric !in metrics then Err(InvalidParameter("metric"))
      else
        var s :- Score(d.params, X, InSample, lk);
        Ok(Detector(d.params, Fitted(X, s, pct(s, PercentileRank(d.params.fpr)))))
  }

  /**
   On a well-shaped training set with enough samples, fit fails exactly when
   the metric is refused, n_jobs is 0, or a training point coincides with one
   of its own neighbours; the first of these names the error.
   */
  lemma FitFails(d: FastAbod, X: Matrix, metrics: set<string>, lk: Lookup, pct: Percentile)
    requires Valid(d) && IsMatrix(X) && d.params.nNeighbors < |X|
    requires LookupFor(X, d.params.nNeighbors, |X|, lk)
    ensures Fit(d, X, metrics, lk, pct).Err? <==>
      d.params.metric !in metrics || !JobsValid(d.params) || Overlaps(X, lk.neighbors, X)
    ensures d.params.metric in metrics && JobsValid(d.params) && Fit(d, X, metrics, lk, pct).Err? ==>
      Fit(d, X, metrics, lk, pct).error == ContainsTrainingSamples
  {
    if JobsValid(d.params) {
      AnomalyScoreFails(Detector(d.params, Fitted(X, [], 0.0)), InSample, lk);
    }
  }

  /** fit as written: the same steps, scoring through the n_jobs check of gen_even_slices. */
  function FitAsWritten(d: FastAbod, X: Matrix, metrics: set<string>, lk: Lookup, pct: Percentile): (r: Result<FastAbod>)
    requires Valid(d)
    requires LookupFor(X, d.params.nNeighbors, |X|, lk)
    ensures d.params.nJobs >= 1 ==> r == Fit(d, X, metrics, lk, pct)
    ensures d.params.nJobs < 1 ==> r.Err?
  {
    match CheckArray(X)
    case Fail(e) => Err(e)
    case Pass =>
      if d.params.metric !in metrics then Err(InvalidParameter("metric"))
      else
        var s :- ScoreAsWritten(d.params, X, InSample, lk);
        Ok(Detector(d.params, Fitted(X, s, pct(s, PercentileRank(d.params.fpr)))))
  }

  /**
   With the documented n_jobs = -1, fit as written refuses every training set
   on which the corrected fit succeeds.
   */
  lemma FitAsWrittenRejectsAllCores(d: FastAbod, X: Matrix, metrics: set<string>, lk: Lookup, pct: Percentile)
    requires Valid(d) && d.params.nJobs == -1
    requires IsMatrix(X) && d.params.metric in metrics && d.params.nNeighbors < |X|
    requires LookupFor(X, d.params.nNeighbors, |X|, lk) && !Overlaps(X, lk.neighbors, X)
    ensures Fit(d, X, metrics, lk, pct).Ok?
    ensures FitAsWritten(d, X, metrics, lk, pct) == Err(InvalidParameter("n_jobs"))
  {
    AllCoresRejectedAsWritten(d.params, X, InSample, lk);
  }

  /** Scoring the training set again through the self-excluding path reproduces the cached y_score_. */
  lemma RescoringTrainingSetIsStable(d: FastAbod, X: Matrix, metrics: set<string>, lk: Lookup, pct: Percentile)
    requires Valid(d) && LookupFor(X, d.params.nNeighbors, |X|, lk)
    ensures Fit(d, X, metrics, lk, pct).Ok? ==>
      AnomalyScore(Fit(d, X, metrics, lk, pct).value, InSample, lk) == Ok(Fit(d, X, metrics, lk, pct).value.state.yScore)
  {
  }

  /** predict: the shared decision rule over FastABOD's scores. */
  function Predict(d: FastAbod, q: Query, lk: Lookup): (r: Result<seq<int>>)
    requires Valid(d)
    requires d.state.Fitted? ==> LookupFor(d.state.model, d.params.nNeighbors, |QueryRows(d.state.model, q)|, lk)
    ensures d.state.Unfitted? ==> r == Err(NotFitted)
    ensures d.state.Fitted? && AnomalyScore(d, q, lk).Err? ==> r == Err(AnomalyScore(d, q, lk).error)
    ensures d.state.Fitted? && AnomalyScore(d, q, lk).Ok? ==> r.Ok?
    ensures r.Ok? ==> d.state.Fitted? && AnomalyScore(d, q, lk).Ok? && |r.value| == |QueryRows(d.state.model, q)|
    ensures r.Ok? ==> |r.value| == |AnomalyScore(d, q, lk).value| && forall i :: 0 <= i < |r.value| ==>
      (r.value[i] == 1 <==> AnomalyScore(d, q, lk).value[i] > d.state.threshold) &&
      (r.value[i] == 0 <==> AnomalyScore(d, q, lk).value[i] <= d.state.threshold)
  {
    PredictFrom(d.state, AnomalyScore(d, q, lk))
  }

  /** fit_predict as written: fit on X, then predict with X passed explicitly. */
  function FitPredict(d: FastAbod, X: Matrix, metrics: set<string>, fitLk: Lookup, lk: Lookup, pct: Percentile): (r: Result<seq<int>>)
    requires Valid(d)
    requires LookupFor(X, d.params.nNeighbors, |X|, fitLk)
    requires LookupFor(X, d.params.nNeighbors, |X|, lk)
    ensures r.Ok? ==> |r.value| == |X|
    ensures Fit(d, X, metrics, fitLk, pct).Err? ==> r == Err(Fit(d, X, metrics, fitLk, pct).error)
  {
    var f :- Fit(d, X, metrics, fitLk, pct);
    Predict(f, Samples(X), lk)
  }

  /**
   With X passed explicitly, the index lists every training point among its
   own neighbours (it is at distance zero), so fit_predict can never succeed.
   */
  lemma FitPredictRejectsTrainingSet(d: FastAbod, X: Matrix, metrics: set<string>, fitLk: Lookup, lk: Lookup, pct: Percentile, j: nat)
    requires Valid(d)
    requires LookupFor(X, d.params.nNeighbors, |X|, fitLk)
    requires LookupFor(X, d.params.nNeighbors, |X|, lk)
    requires |X| > 0 && j < d.params.nNeighbors && X[lk.neighbors[0][j]] == X[0]
    ensures FitPredict(d, X, metrics, fitLk, lk, pct).Err?
    ensures Fit(d, X, metrics, fitLk, pct).Ok? ==> FitPredict(d, X, metrics, fitLk, lk, pct) == Err(ContainsTrainingSamples)
  {
    if Fit(d, X, metrics, fitLk, pct).Ok? {
      var f := Fit(d, X, metrics, fitLk, pct).value;
      assert Overlaps(X, lk.neighbors, X);
      AnomalyScoreFails(f, Samples(X), lk);
    }
  }

  /** fit_predict as intended: fit on X, then label the training set through the in-sample path. */
  function FitPredictInSample(d: FastAbod, X: Matrix, metrics: set<string>, lk: Lookup, pct: Percentile): (r: Result<seq<int>>)
    requires Valid(d)
    requires LookupFor(X, d.params.nNeighbors, |X|, lk)
    ensures r.Ok? <==> Fit(d, X, metrics, lk, pct).Ok?
    ensures r.Ok? ==> |r.value| == |X|
    ensures r.Ok? ==> r.value == Decide(Fit(d, X, metrics, lk, pct).value.state.yScore, Fit(d, X, metrics, lk, pct).value.state.threshold)
  {
    var f :- Fit(d, X, metrics, lk, pct);
    Predict(f, InSample, lk)
  }
}
