/** Dense real matrices as row sequences, and the handful of NumPy
    operations the regressor uses on them: `*` on `np.matrix`, `.transpose()`,
    `np.identity`, `np.ones`, `np.append(..., axis=1)`, element-wise `+`, `/`
    and activation, and the row-major flattening behind `reshape`.

    A matrix with zero rows carries no column count, so every operation whose
    result width cannot be read off its arguments takes that width explicitly.
 */
module Matrices {
  import opened Sums

  type Matrix = seq<seq<real>>

  /** `a` has `r` rows of `c` entries each. */
  predicate IsMatrix(a: Matrix, r: nat, c: nat)
  {
    |a| == r && forall i :: 0 <= i < r ==> |a[i]| == c
  }

  predicate IsSymmetric(a: Matrix, n: nat)
    requires IsMatrix(a, n, n)
  {
    forall i, j :: 0 <= i < n && 0 <= j < n ==> a[i][j] == a[j][i]
  }

  /** Inner product of two vectors of equal length. */
  function Dot(u: seq<real>, v: seq<real>): real
    requires |u| == |v|
    decreases |u|
  {
    if |u| == 0 then 0.0 else Dot(u[..|u| - 1], v[..|v| - 1]) + u[|u| - 1] * v[|v| - 1]
  }

  /** Column `j` of `b`. */
  function Column(b: Matrix, j: nat): (col: seq<real>)
    requires forall k :: 0 <= k < |b| ==> j < |b[k]|
    ensures |col| == |b|
    ensures forall k :: 0 <= k < |b| ==> col[k] == b[k][j]
  {
    seq(|b|, k requires 0 <= k < |b| => b[k][j])
  }

  /** Transpose of an r x c matrix, c x r. */
  function Transpose(a: Matrix, c: nat): (r: Matrix)
    requires IsMatrix(a, |a|, c)
    ensures IsMatrix(r, c, |a|)
    ensures forall j, i :: 0 <= j < c && 0 <= i < |a| ==> r[j][i] == a[i][j]
  {
    seq(c, j requires 0 <= j < c => Column(a, j))
  }

  /** Matrix product of an r x n matrix `a` and an n x p matrix `b`. */
  function MatMul(a: Matrix, b: Matrix, p: nat): (r: Matrix)
    requires IsMatrix(a, |a|, |b|) && IsMatrix(b, |b|, p)
    ensures IsMatrix(r, |a|, p)
    ensures forall i, j :: 0 <= i < |a| && 0 <= j < p ==> r[i][j] == Dot(a[i], Column(b, j))
  {
    seq(|a|, i requires 0 <= i < |a| => seq(p, j requires 0 <= j < p => Dot(a[i], Column(b, j))))
  }

  /** Element-wise sum of two r x c matrices. */
  function Add(a: Matrix, b: Matrix, c: nat): (r: Matrix)
    requires IsMatrix(a, |a|, c) && IsMatrix(b, |a|, c)
    ensures IsMatrix(r, |a|, c)
    ensures forall i, j :: 0 <= i < |a| && 0 <= j < c ==> r[i][j] == a[i][j] + b[i][j]
  {
    seq(|a|, i requires 0 <= i < |a| => seq(c, j requires 0 <= j < c => a[i][j] + b[i][j]))
  }

  /** Every entry divided by the scalar `k`. */
  function Divide(a: Matrix, k: real): (r: Matrix)
    requires k != 0.0
    ensures |r| == |a|
    ensures forall i :: 0 <= i < |a| ==> |r[i]| == |a[i]| && r[i] == DivideAll(a[i], k)
  {
    seq(|a|, i requires 0 <= i < |a| => DivideAll(a[i], k))
  }

  /** The n x n identity. */
  function Identity(n: nat): (r: Matrix)
    ensures IsMatrix(r, n, n)
    ensures forall i, j :: 0 <= i < n && 0 <= j < n ==> r[i][j] == (if i == j then 1.0 else 0.0)
  {
    seq(n, i requires 0 <= i < n => seq(n, j requires 0 <= j < n => if i == j then 1.0 else 0.0))
  }

  /** The r x c matrix of ones. */
  function Ones(r: nat, c: nat): (o: Matrix)
    ensures IsMatrix(o, r, c)
    ensures forall i, j :: 0 <= i < r && 0 <= j < c ==> o[i][j] == 1.0
  {
    seq(r, i => seq(c, j => 1.0))
  }

  /** A vector as a one-column matrix. */
  function ColumnVector(v: seq<real>): (r: Matrix)
    ensures IsMatrix(r, |v|, 1)
    ensures forall i :: 0 <= i < |v| ==> r[i][0] == v[i]
  {
    seq(|v|, i requires 0 <= i < |v| => [v[i]])
  }

  /** Side-by-side concatenation of two matrices with the same row count,
      `np.append(a, b, axis=1)`. */
  function AppendColumns(a: Matrix, b: Matrix, ca: nat, cb: nat): (r: Matrix)
    requires IsMatrix(a, |a|, ca) && IsMatrix(b, |a|, cb)
    ensures IsMatrix(r, |a|, ca + cb)
    ensures forall i, j :: 0 <= i < |a| && 0 <= j < ca ==> r[i][j] == a[i][j]
    ensures forall i, j :: 0 <= i < |a| && ca <= j < ca + cb ==> r[i][j] == b[i][j - ca]
  {
    seq(|a|, i requires 0 <= i < |a| => a[i] + b[i])
  }

  /** The scalar function `g` applied to every entry. */
  function MapEntries(g: real -> real, a: Matrix): (r: Matrix)
    ensures |r| == |a|
    ensures forall i :: 0 <= i < |a| ==> |r[i]| == |a[i]|
    ensures forall i, j :: 0 <= i < |a| && 0 <= j < |a[i]| ==> r[i][j] == g(a[i][j])
  {
    seq(|a|, i requires 0 <= i < |a| => seq(|a[i]|, j requires 0 <= j < |a[i]| => g(a[i][j])))
  }

  /** Row-major concatenation of the rows, the order `reshape` reads entries in. */
  function Flatten(a: Matrix): seq<real>
    decreases |a|
  {
    if |a| == 0 then [] else a[0] + Flatten(a[1..])
  }

  /** `s` cut into consecutive rows of `d` entries, `reshape(-1, d)`. */
  function Chunks(s: seq<real>, d: nat): (r: Matrix)
    requires d > 0 && |s| % d == 0
    ensures IsMatrix(r, |s| / d, d)
    decreases |s|
  {
    if |s| == 0 then []
    else
      DivideStep(|s|, d);
      [s[..d]] + Chunks(s[d..], d)
  }

  lemma DivideStep(n: nat, d: nat)
    requires d > 0 && n > 0 && n % d == 0
    ensures d <= n && (n - d) % d == 0 && (n - d) / d == n / d - 1
  {
    var q := n / d;
    assert n == q * d;
    assert q <= 0 ==> q * d <= 0;
    assert n - d == (q - 1) * d;
    DivideExact(n - d, d, q - 1);
  }

  /** Exact division by a positive divisor. */
  lemma DivideExact(x: int, d: int, k: int)
    requires d > 0 && x == k * d
    ensures x / d == k && x % d == 0
  {
    var m := x / d - k;
    assert d * m == -(x % d);
    assert m >= 1 ==> d * m >= d;
    assert m <= -1 ==> d * m <= -d;
  }

  // ---------------------------------------------------------------------
  // Properties
  // ---------------------------------------------------------------------

  /** The inner product is symmetric. */
  lemma {:induction false} DotCommutes(u: seq<real>, v: seq<real>)
    requires |u| == |v|
    ensures Dot(u, v) == Dot(v, u)
    decreases |u|
  {
    if |u| > 0 {
      DotCommutes(u[..|u| - 1], v[..|v| - 1]);
    }
  }

  /** A vector's inner product with itself is non-negative. */
  lemma {:induction false} DotSelfNonNegative(u: seq<real>)
    ensures 0.0 <= Dot(u, u)
    decreases |u|
  {
    if |u| > 0 {
      DotSelfNonNegative(u[..|u| - 1]);
    }
  }

  /** Inner product with the j-th unit vector picks out entry j. */
  lemma {:induction false} DotUnit(u: seq<real>, e: seq<real>, j: nat)
    requires |u| == |e| && j < |u|
    requires forall k :: 0 <= k < |e| ==> e[k] == (if k == j then 1.0 else 0.0)
    ensures Dot(u, e) == u[j]
    decreases |u|
  {
    var n := |u| - 1;
    if j < n {
      DotUnit(u[..n], e[..n], j);
    } else {
      DotZero(u[..n], e[..n]);
    }
  }

  lemma {:induction false} DotZero(u: seq<real>, z: seq<real>)
    requires |u| == |z|
    requires forall k :: 0 <= k < |z| ==> z[k] == 0.0
    ensures Dot(u, z) == 0.0
    decreases |u|
  {
    if |u| > 0 {
      DotZero(u[..|u| - 1], z[..|z| - 1]);
    }
  }

  /** Multiplying by the identity on the right changes nothing. */
  lemma MatMulIdentityRight(a: Matrix, n: nat)
    requires IsMatrix(a, |a|, n)
    ensures MatMul(a, Identity(n), n) == a
  {
    var r := MatMul(a, Identity(n), n);
    forall i | 0 <= i < |a|
      ensures r[i] == a[i]
    {
      forall j | 0 <= j < n
        ensures r[i][j] == a[i][j]
      {
        DotUnit(a[i], Column(Identity(n), j), j);
      }
    }
  }

  /** Multiplying by the identity on the left changes nothing. */
  lemma MatMulIdentityLeft(a: Matrix, p: nat)
    requires IsMatrix(a, |a|, p)
    ensures MatMul(Identity(|a|), a, p) == a
  {
    var r := MatMul(Identity(|a|), a, p);
    forall i | 0 <= i < |a|
      ensures r[i] == a[i]
    {
      forall j | 0 <= j < p
        ensures r[i][j] == a[i][j]
      {
        DotCommutes(Identity(|a|)[i], Column(a, j));
        DotUnit(Column(a, j), Identity(|a|)[i], i);
      }
    }
  }

  /** Column k of a transpose is row k of the original. */
  lemma ColumnOfTranspose(a: Matrix, c: nat, k: nat)
    requires IsMatrix(a, |a|, c) && k < |a|
    ensures Column(Transpose(a, c), k) == a[k]
  {
  }

  /** Entry (j, i) of a·dataᵀ is the inner product of row j of `a` with
      row i of `data`. */
  lemma ProductWithTranspose(a: Matrix, data: Matrix, n: nat)
    requires IsMatrix(a, |a|, n) && IsMatrix(data, |data|, n)
    ensures forall j, i :: 0 <= j < |a| && 0 <= i < |data| ==>
              MatMul(a, Transpose(data, n), |data|)[j][i] == Dot(a[j], data[i])
  {
    forall i | 0 <= i < |data|
      ensures Column(Transpose(data, n), i) == data[i]
    {
      ColumnOfTranspose(data, n, i);
    }
  }

  /** The Gram matrix of the columns, aᵀ·a, is symmetric with a
      non-negative diagonal. */
  lemma ColumnGramSymmetric(a: Matrix, c: nat)
    requires IsMatrix(a, |a|, c)
    ensures IsSymmetric(MatMul(Transpose(a, c), a, c), c)
    ensures forall j :: 0 <= j < c ==> 0.0 <= MatMul(Transpose(a, c), a, c)[j][j]
  {
    var at := Transpose(a, c);
    var g := MatMul(at, a, c);
    forall i, j | 0 <= i < c && 0 <= j < c
      ensures g[i][j] == Dot(Column(a, i), Column(a, j))
    {
      assert at[i] == Column(a, i);
    }
    forall i, j | 0 <= i < c && 0 <= j < c
      ensures g[i][j] == g[j][i]
    {
      DotCommutes(Column(a, i), Column(a, j));
    }
    forall j | 0 <= j < c
      ensures 0.0 <= g[j][j]
    {
      DotSelfNonNegative(Column(a, j));
    }
  }

  /** The Gram matrix of the rows, a·aᵀ, is symmetric with a non-negative
      diagonal. */
  lemma RowGramSymmetric(a: Matrix, c: nat)
    requires IsMatrix(a, |a|, c)
    ensures IsSymmetric(MatMul(a, Transpose(a, c), |a|), |a|)
    ensures forall i :: 0 <= i < |a| ==> 0.0 <= MatMul(a, Transpose(a, c), |a|)[i][i]
  {
    var g := MatMul(a, Transpose(a, c), |a|);
    forall i, j | 0 <= i < |a| && 0 <= j < |a|
      ensures g[i][j] == Dot(a[i], a[j])
    {
      ColumnOfTranspose(a, c, j);
    }
    forall i, j | 0 <= i < |a| && 0 <= j < |a|
      ensures g[i][j] == g[j][i]
    {
      DotCommutes(a[i], a[j]);
    }
    forall i | 0 <= i < |a|
      ensures 0.0 <= g[i][i]
    {
      DotSelfNonNegative(a[i]);
    }
  }

  /** Adding I/c to a symmetric matrix keeps it symmetric, and for c > 0
      lifts a non-negative diagonal to at least 1/c. */
  lemma RegularisedSymmetric(a: Matrix, n: nat, c: real)
    requires IsMatrix(a, n, n) && IsSymmetric(a, n) && c != 0.0
    requires forall i :: 0 <= i < n ==> 0.0 <= a[i][i]
    ensures IsSymmetric(Add(a, Divide(Identity(n), c), n), n)
    ensures 0.0 < c ==> forall i :: 0 <= i < n ==> 1.0 / c <= Add(a, Divide(Identity(n), c), n)[i][i]
  {
    var id := Identity(n);
    var reg := Divide(id, c);
    forall i, j | 0 <= i < n && 0 <= j < n
      ensures reg[i][j] == reg[j][i]
    {
      assert reg[i][j] == id[i][j] / c;
      assert reg[j][i] == id[j][i] / c;
    }
    forall i | 0 <= i < n
      ensures reg[i][i] == 1.0 / c
    {
      assert reg[i][i] == id[i][i] / c;
    }
  }

  /** Row i of a product depends on row i of the left factor alone. */
  lemma MatMulRowLocal(a: Matrix, a': Matrix, b: Matrix, p: nat, i: nat, i': nat)
    requires IsMatrix(a, |a|, |b|) && IsMatrix(a', |a'|, |b|) && IsMatrix(b, |b|, p)
    requires i < |a| && i' < |a'| && a[i] == a'[i']
    ensures MatMul(a, b, p)[i] == MatMul(a', b, p)[i']
  {
  }

  /** Cutting into rows of `d` and flattening again gives back the entries. */
  lemma {:induction false} FlattenChunks(s: seq<real>, d: nat)
    requires d > 0 && |s| % d == 0
    ensures Flatten(Chunks(s, d)) == s
    decreases |s|
  {
    if |s| > 0 {
      DivideStep(|s|, d);
      var rest := Chunks(s[d..], d);
      FlattenChunks(s[d..], d);
      assert ([s[..d]] + rest)[1..] == rest;
    }
  }

  /** Flattening a matrix of rows of width d and cutting into rows of `d`
      gives back the matrix. */
  lemma {:induction false} ChunksFlatten(a: Matrix, r: nat, d: nat)
    requires d > 0 && IsMatrix(a, r, d)
    ensures |Flatten(a)| % d == 0
    ensures Chunks(Flatten(a), d) == a
    decreases r
  {
    if r == 0 {
      assert Flatten(a) == [];
    } else {
      var t := Flatten(a[1..]);
      ChunksFlatten(a[1..], r - 1, d);
      assert Flatten(a) == a[0] + t;
      ChunksStep(Flatten(a), d, a[0], t);
      assert a == [a[0]] + a[1..];
    }
  }

  lemma ChunksStep(f: seq<real>, d: nat, head: seq<real>, t: seq<real>)
    requires d > 0 && |head| == d && f == head + t && |t| % d == 0
    ensures |f| % d == 0
    ensures Chunks(f, d) == [head] + Chunks(t, d)
  {
    DivideExact(|t|, d, |t| / d);
    DivideExact(|f|, d, |t| / d + 1);
    assert f[..d] == head;
    assert f[d..] == t;
  }

  lemma {:induction false} FlattenLength(a: Matrix, r: nat, d: nat)
    requires IsMatrix(a, r, d)
    ensures |Flatten(a)| == r * d
    decreases r
  {
    if r > 0 {
      FlattenLength(a[1..], r - 1, d);
      assert |Flatten(a)| == d + (r - 1) * d;
    }
  }

  /** Two matrices of rows of width d are equal exactly when their
      flattenings are. */
  lemma FlattenInjective(a: Matrix, b: Matrix, r: nat, d: nat)
    requires d > 0 && IsMatrix(a, r, d) && IsMatrix(b, r, d)
    ensures Flatten(a) == Flatten(b) <==> a == b
  {
    ChunksFlatten(a, r, d);
    ChunksFlatten(b, r, d);
  }

  /** The sum of a flattened matrix is the sum of its row sums. */
  lemma {:induction false} SumFlatten(a: Matrix)
    ensures Sum(Flatten(a)) == Sum(RowSums(a))
    decreases |a|
  {
    if |a| > 0 {
      SumFlatten(a[1..]);
      SumConcat(a[0], Flatten(a[1..]));
      SumConcat([Sum(a[0])], RowSums(a[1..]));
      assert RowSums(a) == [Sum(a[0])] + RowSums(a[1..]);
      assert Sum([Sum(a[0])]) == Sum(a[0]) by {
        assert [Sum(a[0])][..0] == [];
      }
    }
  }

  function RowSums(a: Matrix): (r: seq<real>)
    ensures |r| == |a|
    ensures forall i :: 0 <= i < |a| ==> r[i] == Sum(a[i])
  {
    seq(|a|, i requires 0 <= i < |a| => Sum(a[i]))
  }

  function ColumnSums(a: Matrix, c: nat): (r: seq<real>)
    requires IsMatrix(a, |a|, c)
    ensures |r| == c
    ensures forall j :: 0 <= j < c ==> r[j] == Sum(Column(a, j))
  {
    seq(c, j requires 0 <= j < c => Sum(Column(a, j)))
  }

  /** Summing an r x c matrix by rows or by columns gives the same total. */
  lemma {:induction false} SumByRowsOrColumns(a: Matrix, c: nat)
    requires IsMatrix(a, |a|, c)
    ensures Sum(RowSums(a)) == Sum(ColumnSums(a, c))
    decreases |a|
  {
    if |a| == 0 {
      ZeroColumnSums(a, c);
    } else {
      var n := |a| - 1;
      var top := a[..n];
      SumByRowsOrColumns(top, c);
      assert RowSums(a)[..n] == RowSums(top);
      forall j | 0 <= j < c
        ensures ColumnSums(a, c)[j] == ColumnSums(top, c)[j] + a[n][j]
      {
        assert Column(a, j)[..n] == Column(top, j);
      }
      SumPointwiseAdd(ColumnSums(top, c), a[n], ColumnSums(a, c));
    }
  }

  lemma {:induction false} ZeroColumnSums(a: Matrix, c: nat)
    requires IsMatrix(a, 0, c)
    ensures Sum(ColumnSums(a, c)) == 0.0
    decreases c
  {
    if c > 0 {
      ZeroColumnSums(a, c - 1);
      assert ColumnSums(a, c)[..c - 1] == ColumnSums(a, c - 1);
    }
  }
}
