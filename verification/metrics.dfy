/** The accuracy metrics of `WelmRegressor`: `rmse`, `eds` and `aed`.

    The square root of `eds`/`aed` is a parameter: any `sqrt` satisfying
    `IsSqrt` (non-negative, squares back to its argument on x >= 0).
 */
module Metrics {
  import opened Results
  import opened Sums
  import opened Matrices

  /** `sqrt` is the non-negative square root on the non-negative reals. */
  ghost predicate IsSqrt(sqrt: real -> real)
  {
    forall x :: 0.0 <= x ==> 0.0 <= sqrt(x) && Square(sqrt(x)) == x
  }

  /** Entry-wise squared differences, `np.square(u - v)` on one row. */
  function SquaredErrors(u: seq<real>, v: seq<real>): (r: seq<real>)
    requires |u| == |v|
    ensures |r| == |u|
    ensures forall k :: 0 <= k < |u| ==> r[k] == Square(u[k] - v[k])
  {
    seq(|u|, k requires 0 <= k < |u| => Square(u[k] - v[k]))
  }

  /** Squared differences are non-negative, and zero exactly where the
      vectors agree. */
  lemma SquaredErrorsSign(u: seq<real>, v: seq<real>)
    requires |u| == |v|
    ensures AllNonNegative(SquaredErrors(u, v))
    ensures forall k :: 0 <= k < |u| ==> (SquaredErrors(u, v)[k] == 0.0 <==> u[k] == v[k])
  {
    forall k | 0 <= k < |u|
      ensures 0.0 <= SquaredErrors(u, v)[k]
      ensures SquaredErrors(u, v)[k] == 0.0 <==> u[k] == v[k]
    {
      SquareSign(u[k] - v[k]);
    }
  }

  /** Squared Euclidean distance between two vectors. */
  function SquaredDistance(u: seq<real>, v: seq<real>): (r: real)
    requires |u| == |v|
    ensures 0.0 <= r
    ensures r == 0.0 <==> u == v
  {
    var e := SquaredErrors(u, v);
    SquaredErrorsSign(u, v);
    SumNonNegative(e);
    assert (forall k :: 0 <= k < |u| ==> e[k] == 0.0) <==> u == v by {
      if forall k :: 0 <= k < |u| ==> e[k] == 0.0 {
        assert forall k :: 0 <= k < |u| ==> u[k] == v[k];
      }
    }
    Sum(e)
  }

  /** The r x c matrix of squared differences between predictions and targets. */
  function ErrorMatrix(p: Matrix, t: Matrix, r: nat, c: nat): (e: Matrix)
    requires IsMatrix(p, r, c) && IsMatrix(t, r, c)
    ensures IsMatrix(e, r, c)
    ensures forall i :: 0 <= i < r ==> e[i] == SquaredErrors(p[i], t[i])
  {
    seq(r, i requires 0 <= i < r => SquaredErrors(p[i], t[i]))
  }

  /** Mean squared error of each output column. */
  function ColumnMse(p: Matrix, t: Matrix, r: nat, c: nat): (m: seq<real>)
    requires IsMatrix(p, r, c) && IsMatrix(t, r, c) && r > 0
    ensures |m| == c
  {
    DivideAll(ColumnSums(ErrorMatrix(p, t, r, c), c), r as real)
  }

  /** `rmse`: the average over output columns of each column's mean squared
      error.  No square root is taken.  With no columns, `np.average` over
      axis 0 scales by 0/0 and raises; with columns but no rows, every column
      mean is NaN and so is their average. */
  function Rmse(p: Matrix, t: Matrix, r: nat, c: nat): (m: Result<Option<real>>)
    requires IsMatrix(p, r, c) && IsMatrix(t, r, c)
    ensures m.Err? <==> c == 0
    ensures m.Err? ==> m.error == EmptyAverage
    ensures m.Ok? ==> (m.value.None? <==> r == 0)
  {
    if c == 0 then Err(EmptyAverage)
    else if r == 0 then Ok(None)
    else Ok(Mean(ColumnMse(p, t, r, c)))
  }

  /** Averaging per-column errors is the same as averaging all r·c squared
      errors at once, because every column has the same number of rows. */
  lemma RmseIsMeanOfAllSquaredErrors(p: Matrix, t: Matrix, r: nat, c: nat)
    requires IsMatrix(p, r, c) && IsMatrix(t, r, c)
    ensures 0 < c ==> Rmse(p, t, r, c) == Ok(Mean(Flatten(ErrorMatrix(p, t, r, c))))
  {
    var e := ErrorMatrix(p, t, r, c);
    FlattenLength(e, r, c);
    if r == 0 || c == 0 {
      assert r * c == 0;
    } else {
      var total := Sum(Flatten(e));
      SumFlatten(e);
      SumByRowsOrColumns(e, c);
      SumDivideAll(ColumnSums(e, c), r as real);
      var cm := ColumnMse(p, t, r, c);
      var perRow := total / (r as real);
      assert Sum(cm) == perRow;
      assert Rmse(p, t, r, c) == Ok(Some(perRow / (c as real)));
      var rc := (r * c) as real;
      DivideByCounts(total, r, c);
      assert perRow / (c as real) == total / rc;
      assert |Flatten(e)| == r * c;
      assert Mean(Flatten(e)) == Some(total / rc);
    }
  }

  lemma DivideByCounts(total: real, r: nat, c: nat)
    requires r > 0 && c > 0
    ensures (total / (r as real)) / (c as real) == total / ((r * c) as real)
  {
    var rr := r as real;
    var cc := c as real;
    assert (r * c) as real == rr * cc;
    DivideTwice(total, rr, cc);
  }

  /** `rmse` is non-negative, and zero exactly when the predictions equal
      the targets. */
  lemma RmseZeroIffExact(p: Matrix, t: Matrix, r: nat, c: nat)
    requires IsMatrix(p, r, c) && IsMatrix(t, r, c) && r > 0 && c > 0
    ensures Rmse(p, t, r, c).Ok? && Rmse(p, t, r, c).value.Some?
    ensures 0.0 <= Rmse(p, t, r, c).value.value
    ensures Rmse(p, t, r, c).value.value == 0.0 <==> p == t
  {
    var e := ErrorMatrix(p, t, r, c);
    RmseIsMeanOfAllSquaredErrors(p, t, r, c);
    SumFlatten(e);
    RowSumsAreDistances(p, t, r, c);
    TotalSquaredDistanceZeroIff(p, t, c);
    FlattenLength(e, r, c);
    assert 0 < |Flatten(e)| by {
      assert 0 < r * c;
    }
    DivideSign(Sum(Flatten(e)), |Flatten(e)| as real);
  }

  lemma RowSumsAreDistances(p: Matrix, t: Matrix, r: nat, c: nat)
    requires IsMatrix(p, r, c) && IsMatrix(t, r, c)
    ensures RowSums(ErrorMatrix(p, t, r, c)) == SquaredDistances(p, t, c)
  {
  }

  /** The squared distances between corresponding rows sum to a
      non-negative total, zero exactly when the matrices are equal. */
  lemma TotalSquaredDistanceZeroIff(ps: Matrix, ts: Matrix, d: nat)
    requires IsMatrix(ps, |ps|, d) && IsMatrix(ts, |ps|, d)
    ensures 0.0 <= Sum(SquaredDistances(ps, ts, d))
    ensures Sum(SquaredDistances(ps, ts, d)) == 0.0 <==> ps == ts
  {
    var sd := SquaredDistances(ps, ts, d);
    SumNonNegative(sd);
    if Sum(sd) == 0.0 {
      assert forall i :: 0 <= i < |ps| ==> ps[i] == ts[i];
    }
  }

  /** Rows of `dimensions` entries cut from the row-major entries of `a`. */
  function Reshape(a: Matrix, dimensions: nat): (rows: Matrix)
    requires dimensions > 0 && |Flatten(a)| % dimensions == 0
    ensures IsMatrix(rows, |Flatten(a)| / dimensions, dimensions)
    ensures Flatten(rows) == Flatten(a)
  {
    FlattenChunks(Flatten(a), dimensions);
    Chunks(Flatten(a), dimensions)
  }

  predicate Reshapeable(a: Matrix, dimensions: int)
  {
    dimensions > 0 && |Flatten(a)| % dimensions == 0
  }

  /** `ds` holds, for each row pair, the Euclidean distance divided by
      `factor`. */
  ghost predicate ScaledDistances(ds: seq<real>, ps: Matrix, ts: Matrix, d: nat, factor: real)
    requires IsMatrix(ps, |ps|, d) && IsMatrix(ts, |ps|, d)
  {
    && |ds| == |ps|
    && forall i :: 0 <= i < |ps| ==>
         0.0 <= ds[i] * factor && Square(ds[i] * factor) == SquaredDistance(ps[i], ts[i])
  }

  /** `eds`: one Euclidean distance per reshaped row, divided by `factor`.
      Reshaping fails unless `dimensions` is positive and divides the entry
      count. */
  function Eds(p: Matrix, t: Matrix, dimensions: int, factor: real, sqrt: real -> real): (r: Result<seq<real>>)
    requires |Flatten(p)| == |Flatten(t)| && factor != 0.0 && IsSqrt(sqrt)
    ensures r.Ok? <==> Reshapeable(p, dimensions)
    ensures r.Err? ==> r.error == ReshapeFailure
    ensures r.Ok? ==> |r.value| == |Flatten(p)| / dimensions
    ensures r.Ok? ==> ScaledDistances(r.value, Reshape(p, dimensions), Reshape(t, dimensions), dimensions, factor)
    ensures r.Ok? && 0.0 < factor ==> AllNonNegative(r.value)
  {
    if !Reshapeable(p, dimensions) then Err(ReshapeFailure)
    else
      var ps := Reshape(p, dimensions);
      var ts := Reshape(t, dimensions);
      var ds := Distances(ps, ts, dimensions, sqrt);
      DivideAllNonNegative(ds, factor);
      DividedDistances(ds, ps, ts, dimensions, factor);
      Ok(DivideAll(ds, factor))
  }

  lemma DividedDistances(ds: seq<real>, ps: Matrix, ts: Matrix, d: nat, factor: real)
    requires IsMatrix(ps, |ps|, d) && IsMatrix(ts, |ps|, d) && factor != 0.0
    requires |ds| == |ps| && AllNonNegative(ds)
    requires forall i :: 0 <= i < |ps| ==> Square(ds[i]) == SquaredDistance(ps[i], ts[i])
    ensures ScaledDistances(DivideAll(ds, factor), ps, ts, d, factor)
  {
    var q := DivideAll(ds, factor);
    forall i | 0 <= i < |ps|
      ensures 0.0 <= q[i] * factor && Square(q[i] * factor) == SquaredDistance(ps[i], ts[i])
    {
      assert q[i] * factor == ds[i];
    }
  }

  /** Squared Euclidean distance between corresponding rows. */
  function SquaredDistances(ps: Matrix, ts: Matrix, d: nat): (r: seq<real>)
    requires IsMatrix(ps, |ps|, d) && IsMatrix(ts, |ps|, d)
    ensures |r| == |ps| && AllNonNegative(r)
    ensures forall i :: 0 <= i < |ps| ==> r[i] == SquaredDistance(ps[i], ts[i])
  {
    seq(|ps|, i requires 0 <= i < |ps| => SquaredDistance(ps[i], ts[i]))
  }

  /** Square roots of non-negative terms. */
  function Roots(s: seq<real>, sqrt: real -> real): (r: seq<real>)
    requires AllNonNegative(s) && IsSqrt(sqrt)
    ensures |r| == |s| && AllNonNegative(r)
    ensures forall i :: 0 <= i < |s| ==> Square(r[i]) == s[i]
  {
    seq(|s|, i requires 0 <= i < |s| => sqrt(s[i]))
  }

  /** Euclidean distance between corresponding rows. */
  function Distances(ps: Matrix, ts: Matrix, d: nat, sqrt: real -> real): (r: seq<real>)
    requires IsMatrix(ps, |ps|, d) && IsMatrix(ts, |ps|, d) && IsSqrt(sqrt)
    ensures |r| == |ps| && AllNonNegative(r)
    ensures forall i :: 0 <= i < |ps| ==> Square(r[i]) == SquaredDistance(ps[i], ts[i])
  {
    Roots(SquaredDistances(ps, ts, d), sqrt)
  }

  /** `aed`: the mean Euclidean distance between reshaped rows, divided by
      `factor`; NaN when there are no rows. */
  function Aed(p: Matrix, t: Matrix, dimensions: int, factor: real, sqrt: real -> real): (r: Result<Option<real>>)
    requires |Flatten(p)| == |Flatten(t)| && factor != 0.0 && IsSqrt(sqrt)
    ensures r.Ok? <==> Reshapeable(p, dimensions)
    ensures r.Err? ==> r.error == ReshapeFailure
    ensures r.Ok? ==> (r.value.None? <==> |Flatten(p)| == 0)
  {
    if !Reshapeable(p, dimensions) then Err(ReshapeFailure)
    else
      var ds := Distances(Reshape(p, dimensions), Reshape(t, dimensions), dimensions, sqrt);
      // 0 / dimensions == 0, so an empty input reshapes to no rows (the NaN case)
      DivideExact(0, dimensions, 0);
      match Mean(ds)
      case None => Ok(None)
      case Some(m) => Ok(Some(m / factor))
  }

  /** `aed` is the mean of `eds` for the same arguments, and both fail on
      the same inputs. */
  lemma AedIsMeanOfEds(p: Matrix, t: Matrix, dimensions: int, factor: real, sqrt: real -> real)
    requires |Flatten(p)| == |Flatten(t)| && factor != 0.0 && IsSqrt(sqrt)
    ensures Aed(p, t, dimensions, factor, sqrt) ==
              match Eds(p, t, dimensions, factor, sqrt)
              case Err(e) => Err(e)
              case Ok(ds) => Ok(Mean(ds))
  {
    if Reshapeable(p, dimensions) {
      var ds := Distances(Reshape(p, dimensions), Reshape(t, dimensions), dimensions, sqrt);
      if |ds| > 0 {
        MeanDivideAll(ds, factor);
      }
    }
  }

  /** A distance scaled by a non-zero factor is zero exactly when the
      squared distance is. */
  lemma ScaledZero(x: real, factor: real, sd: real)
    requires factor != 0.0 && Square(x * factor) == sd
    ensures x == 0.0 ==> sd == 0.0
    ensures sd == 0.0 ==> x == 0.0
  {
    SquareSign(x * factor);
    if x == 0.0 {
      assert x * factor == 0.0;
    } else {
      assert (x * factor) / factor == x;
    }
  }

  /** Scaled distances are all zero exactly when the row sequences agree. */
  lemma ScaledDistancesZeroIff(ds: seq<real>, ps: Matrix, ts: Matrix, d: nat, factor: real)
    requires IsMatrix(ps, |ps|, d) && IsMatrix(ts, |ps|, d) && factor != 0.0
    requires ScaledDistances(ds, ps, ts, d, factor)
    ensures (forall i :: 0 <= i < |ds| ==> ds[i] == 0.0) <==> ps == ts
  {
    forall i | 0 <= i < |ps|
      ensures ds[i] == 0.0 <==> ps[i] == ts[i]
    {
      ScaledZero(ds[i], factor, SquaredDistance(ps[i], ts[i]));
    }
    if forall i :: 0 <= i < |ps| ==> ds[i] == 0.0 {
      assert forall i :: 0 <= i < |ps| ==> ps[i] == ts[i];
    }
  }

  /** Every per-row distance is zero exactly when the predictions and
      targets hold the same entries in the same order. */
  lemma EdsZeroIffExact(p: Matrix, t: Matrix, dimensions: int, factor: real, sqrt: real -> real)
    requires |Flatten(p)| == |Flatten(t)| && factor != 0.0 && IsSqrt(sqrt)
    requires Reshapeable(p, dimensions)
    ensures (forall i :: 0 <= i < |Eds(p, t, dimensions, factor, sqrt).value| ==>
               Eds(p, t, dimensions, factor, sqrt).value[i] == 0.0)
            <==> Flatten(p) == Flatten(t)
  {
    var ps := Reshape(p, dimensions);
    var ts := Reshape(t, dimensions);
    var ds := Eds(p, t, dimensions, factor, sqrt).value;
    ScaledDistancesZeroIff(ds, ps, ts, dimensions, factor);
    FlattenInjective(ps, ts, |ps|, dimensions);
  }

  /** With a positive conversion factor, `aed` is non-negative and is zero
      exactly when the predictions and targets hold the same entries. */
  lemma AedZeroIffExact(p: Matrix, t: Matrix, dimensions: int, factor: real, sqrt: real -> real)
    requires |Flatten(p)| == |Flatten(t)| && 0.0 < factor && IsSqrt(sqrt)
    requires Reshapeable(p, dimensions) && |Flatten(p)| > 0
    ensures Aed(p, t, dimensions, factor, sqrt).value.Some?
    ensures 0.0 <= Aed(p, t, dimensions, factor, sqrt).value.value
    ensures Aed(p, t, dimensions, factor, sqrt).value.value == 0.0 <==> Flatten(p) == Flatten(t)
  {
    AedIsMeanOfEds(p, t, dimensions, factor, sqrt);
    EdsZeroIffExact(p, t, dimensions, factor, sqrt);
    var ds := Eds(p, t, dimensions, factor, sqrt).value;
    DivideStep(|Flatten(p)|, dimensions);
    assert 0 < |ds|;
    SumNonNegative(ds);
    DivideSign(Sum(ds), |ds| as real);
  }
}
