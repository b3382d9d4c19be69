/**
 Exact real arithmetic on rows and matrices: the inner products, sums, means and
 population variance that the scoring rules use in place of numpy's float64.
 */
module Vectors {
  import opened Base

  /** Real multiplication, named so that sign facts about products can be stated once. */
  function Mul(a: real, b: real): real {
    a * b
  }

  lemma MulPositive(a: real, b: real)
    requires a > 0.0 && b > 0.0
    ensures Mul(a, b) > 0.0
  {
  }

  lemma MulNegative(a: real, b: real)
    requires a < 0.0 && b < 0.0
    ensures Mul(a, b) > 0.0
  {
    MulPositive(-a, -b);
    assert Mul(-a, -b) == Mul(a, b);
  }

  lemma MulNonneg(a: real, b: real)
    requires a >= 0.0 && b >= 0.0
    ensures Mul(a, b) >= 0.0
  {
    if a > 0.0 && b > 0.0 {
      MulPositive(a, b);
    }
  }

  lemma SquarePositive(x: real)
    requires x != 0.0
    ensures Mul(x, x) > 0.0
  {
    if x > 0.0 {
      MulPositive(x, x);
    } else {
      MulNegative(x, x);
    }
  }

  lemma SquareNonneg(x: real)
    ensures Mul(x, x) >= 0.0
  {
    if x != 0.0 {
      SquarePositive(x);
    }
  }

  function Dot(a: Row, b: Row): real
    requires |a| == |b|
  {
    if |a| == 0 then 0.0 else Mul(a[0], b[0]) + Dot(a[1..], b[1..])
  }

  function Sub(a: Row, b: Row): (r: Row)
    requires |a| == |b|
    ensures |r| == |a|
    ensures forall i :: 0 <= i < |a| ==> r[i] == a[i] - b[i]
  {
    seq(|a|, i requires 0 <= i < |a| => a[i] - b[i])
  }

  function Add(a: Row, b: Row): (r: Row)
    requires |a| == |b|
    ensures |r| == |a|
    ensures forall i :: 0 <= i < |a| ==> r[i] == a[i] + b[i]
  {
    seq(|a|, i requires 0 <= i < |a| => a[i] + b[i])
  }

  predicate IsZero(v: Row) {
    forall i :: 0 <= i < |v| ==> v[i] == 0.0
  }

  predicate IsUnit(v: Row) {
    Dot(v, v) == 1.0
  }

  /** A vector's squared norm is never negative. */
  lemma {:induction false} DotSelfNonneg(v: Row)
    ensures Dot(v, v) >= 0.0
  {
    if |v| > 0 {
      DotSelfNonneg(v[1..]);
      SquareNonneg(v[0]);
    }
  }

  /** Over the reals, the squared norm vanishes exactly on the zero vector. */
  lemma {:induction false} DotSelfZero(v: Row)
    ensures Dot(v, v) == 0.0 <==> IsZero(v)
  {
    if |v| > 0 {
      DotSelfZero(v[1..]);
      DotSelfNonneg(v[1..]);
      assert IsZero(v) <==> v[0] == 0.0 && IsZero(v[1..]) by {
        if v[0] == 0.0 && IsZero(v[1..]) {
          forall i | 0 <= i < |v| ensures v[i] == 0.0 {
            if i > 0 { assert v[i] == v[1..][i - 1]; }
          }
        }
      }
      if v[0] != 0.0 {
        SquarePositive(v[0]);
      }
    }
  }

  lemma {:induction false} DotZeroLeft(a: Row, b: Row)
    requires |a| == |b| && IsZero(a)
    ensures Dot(a, b) == 0.0
  {
    if |a| > 0 {
      DotZeroLeft(a[1..], b[1..]);
    }
  }

  lemma {:induction false} DotZeroRight(a: Row, b: Row)
    requires |a| == |b| && IsZero(b)
    ensures Dot(a, b) == 0.0
  {
    if |a| > 0 {
      DotZeroRight(a[1..], b[1..]);
    }
  }

  /** |x - m|^2 = |x|^2 - 2 x.m + |m|^2 */
  lemma {:induction false} DotSubExpand(x: Row, m: Row)
    requires |x| == |m|
    ensures Dot(Sub(x, m), Sub(x, m)) == Dot(x, x) - 2.0 * Dot(x, m) + Dot(m, m)
  {
    if |x| > 0 {
      assert Sub(x, m)[1..] == Sub(x[1..], m[1..]);
      DotSubExpand(x[1..], m[1..]);
    }
  }

  /** |x + m|^2 = |x|^2 + 2 x.m + |m|^2 */
  lemma {:induction false} DotAddExpand(x: Row, m: Row)
    requires |x| == |m|
    ensures Dot(Add(x, m), Add(x, m)) == Dot(x, x) + 2.0 * Dot(x, m) + Dot(m, m)
  {
    if |x| > 0 {
      assert Add(x, m)[1..] == Add(x[1..], m[1..]);
      DotAddExpand(x[1..], m[1..]);
    }
  }

  /** The inner product of two unit vectors lies in [-1, 1]. */
  lemma UnitDotBounded(x: Row, m: Row)
    requires |x| == |m| && IsUnit(x) && IsUnit(m)
    ensures -1.0 <= Dot(x, m) <= 1.0
  {
    DotSubExpand(x, m);
    DotSelfNonneg(Sub(x, m));
    DotAddExpand(x, m);
    DotSelfNonneg(Add(x, m));
  }

  function Sum(s: seq<real>): real {
    if |s| == 0 then 0.0 else s[0] + Sum(s[1..])
  }

  lemma {:induction false} SumNonneg(s: seq<real>)
    requires forall i :: 0 <= i < |s| ==> s[i] >= 0.0
    ensures Sum(s) >= 0.0
  {
    if |s| > 0 {
      SumNonneg(s[1..]);
    }
  }

  function Mean(s: seq<real>): real
    requires |s| > 0
  {
    Sum(s) / |s| as real
  }

  function SquaredDeviations(s: seq<real>, mu: real): (r: seq<real>)
    ensures |r| == |s|
    ensures forall i :: 0 <= i < |s| ==> r[i] == (s[i] - mu) * (s[i] - mu)
  {
    seq(|s|, i requires 0 <= i < |s| => (s[i] - mu) * (s[i] - mu))
  }

  /** numpy's var with ddof = 0: the mean squared deviation from the mean. */
  function Variance(s: seq<real>): real
    requires |s| > 0
  {
    Mean(SquaredDeviations(s, Mean(s)))
  }

  /** A population variance is never negative. */
  lemma VarianceNonneg(s: seq<real>)
    requires |s| > 0
    ensures Variance(s) >= 0.0
  {
    var d := SquaredDeviations(s, Mean(s));
    forall i | 0 <= i < |d| ensures d[i] >= 0.0 {
      var e := s[i] - Mean(s);
      assert d[i] == e * e;
    }
    SumNonneg(d);
  }

  function Column(X: Matrix, j: nat): (r: seq<real>)
    requires forall i :: 0 <= i < |X| ==> j < |X[i]|
    ensures |r| == |X|
    ensures forall i :: 0 <= i < |X| ==> r[i] == X[i][j]
  {
    seq(|X|, i requires 0 <= i < |X| => X[i][j])
  }

  /** numpy's mean over axis 0: the per-feature mean of the rows. */
  function ColumnMean(X: Matrix): (r: Row)
    requires IsMatrix(X)
    ensures |r| == Width(X)
    ensures forall j :: 0 <= j < Width(X) ==> r[j] == Mean(Column(X, j))
  {
    seq(Width(X), j requires 0 <= j < Width(X) => Mean(Column(X, j)))
  }

  /** A square matrix of the given order. */
  predicate IsSquare(P: Matrix, n: nat) {
    |P| == n && RowsOfWidth(P, n)
  }

  /** The row-vector product `c @ P`. */
  function VecMat(c: Row, P: Matrix): (r: Row)
    requires IsSquare(P, |c|)
    ensures |r| == |c|
    ensures forall j :: 0 <= j < |c| ==> r[j] == Dot(c, Column(P, j))
  {
    seq(|c|, j requires 0 <= j < |c| => Dot(c, Column(P, j)))
  }

  /** The zero row times any matrix is the zero row. */
  lemma VecMatZero(c: Row, P: Matrix)
    requires IsSquare(P, |c|) && IsZero(c)
    ensures IsZero(VecMat(c, P))
  {
    forall j | 0 <= j < |c| ensures VecMat(c, P)[j] == 0.0 {
      DotZeroLeft(c, Column(P, j));
    }
  }
}
