/** `WelmRegressor`: a weighted extreme learning machine for regression.

    The input-layer weights and biases are fixed (drawn at random by the
    original; parameters here), the hidden-layer matrix H is computed from
    them, and the output weights β solve a ridge-regularised, sample-weighted
    least-squares system in closed form.  Two formulations of that system
    exist; which one is used depends only on the shape of H.

    The least-squares solver (`np.linalg.lstsq`), the activation function
    and the square root are parameters.
 */
module Welm {
  import opened Results
  import opened Matrices
  import opened Metrics

  /** `solve(a, b)`: a least-squares solution x of a·x = b. */
  type Solver = (Matrix, Matrix) -> Matrix

  /** All the model assumes of the solver: for an n x n coefficient matrix
      and an n x k right-hand side it returns an n x k matrix. */
  ghost predicate IsShapeSolver(solve: Solver)
  {
    forall a, b, n: nat, k: nat | IsMatrix(a, n, n) && IsMatrix(b, n, k) :: IsMatrix(solve(a, b), n, k)
  }

  lemma SolveShape(solve: Solver, a: Matrix, b: Matrix, n: nat, k: nat)
    requires IsShapeSolver(solve) && IsMatrix(a, n, n) && IsMatrix(b, n, k)
    ensures IsMatrix(solve(a, b), n, k)
  {
  }

  /** Input weights and biases as `np.random.rand` draws them: an l x n
      input-weight matrix with entries in [-1, 1) and l biases in [0, 1). */
  predicate Sampled(inputWeight: Matrix, bias: seq<real>, l: nat, n: nat)
  {
    && IsMatrix(inputWeight, l, n)
    && |bias| == l
    && (forall j, k :: 0 <= j < l && 0 <= k < n ==> -1.0 <= inputWeight[j][k] < 1.0)
    && (forall j :: 0 <= j < l ==> 0.0 <= bias[j] < 1.0)
  }

  // ---------------------------------------------------------------------
  // Hidden layer
  // ---------------------------------------------------------------------

  /** The pre-activation hidden matrix (w·dataᵀ + B)ᵀ, where the bias matrix
      B is the bias column followed by a block of ones: only the first sample
      receives the biases, every later sample receives +1 in each neuron. */
  function PreActivation(inputWeight: Matrix, bias: seq<real>, data: Matrix, n: nat): (z: Matrix)
    requires IsMatrix(inputWeight, |bias|, n) && IsMatrix(data, |data|, n) && 1 <= |data|
    ensures IsMatrix(z, |data|, |bias|)
    ensures forall i, j :: 0 <= i < |data| && 0 <= j < |bias| ==>
              z[i][j] == Dot(inputWeight[j], data[i]) + (if i == 0 then bias[j] else 1.0)
  {
    var l := |bias|;
    var rows := |data|;
    var product := MatMul(inputWeight, Transpose(data, n), rows);
    var biasMatrix := AppendColumns(ColumnVector(bias), Ones(l, rows - 1), 1, rows - 1);
    ProductWithTranspose(inputWeight, data, n);
    Transpose(Add(product, biasMatrix, rows), rows)
  }

  /** `__build_hidden_layer_output_matrix__`: the activation applied to every
      pre-activation entry.  With no rows the ones block would need -1
      columns, which NumPy refuses. */
  function HiddenMatrix(inputWeight: Matrix, bias: seq<real>, data: Matrix, n: nat, g: real -> real): (r: Result<Matrix>)
    requires IsMatrix(inputWeight, |bias|, n) && IsMatrix(data, |data|, n)
    ensures r.Ok? <==> 1 <= |data|
    ensures r.Err? ==> r.error == NoSamples
    ensures r.Ok? ==> IsMatrix(r.value, |data|, |bias|)
    ensures r.Ok? ==> forall i, j :: 0 <= i < |data| && 0 <= j < |bias| ==>
              r.value[i][j] == g(Dot(inputWeight[j], data[i]) + (if i == 0 then bias[j] else 1.0))
  {
    if |data| == 0 then Err(NoSamples)
    else Ok(MapEntries(g, PreActivation(inputWeight, bias, data, n)))
  }

  /** The textbook hidden matrix, g(w·x_i + b) with the bias broadcast to
      every sample. */
  function BroadcastHidden(inputWeight: Matrix, bias: seq<real>, data: Matrix, n: nat, g: real -> real): (r: Matrix)
    requires IsMatrix(inputWeight, |bias|, n) && IsMatrix(data, |data|, n)
    ensures IsMatrix(r, |data|, |bias|)
  {
    seq(|data|, i requires 0 <= i < |data| =>
      seq(|bias|, j requires 0 <= j < |bias| => g(Dot(inputWeight[j], data[i]) + bias[j])))
  }

  /** How the hidden matrix relates to the broadcast one: the first row is
      the broadcast row, every later row is the broadcast row for biases all
      equal to 1. */
  lemma HiddenMatrixVersusBroadcast(inputWeight: Matrix, bias: seq<real>, data: Matrix, n: nat, g: real -> real)
    requires IsMatrix(inputWeight, |bias|, n) && IsMatrix(data, |data|, n) && 1 <= |data|
    ensures HiddenMatrix(inputWeight, bias, data, n, g).value[0] == BroadcastHidden(inputWeight, bias, data, n, g)[0]
    ensures forall i :: 1 <= i < |data| ==>
              HiddenMatrix(inputWeight, bias, data, n, g).value[i]
              == BroadcastHidden(inputWeight, seq(|bias|, j => 1.0), data, n, g)[i]
  {
    var h := HiddenMatrix(inputWeight, bias, data, n, g).value;
    var ones := seq(|bias|, j => 1.0);
    assert h[0] == BroadcastHidden(inputWeight, bias, data, n, g)[0];
    forall i | 1 <= i < |data|
      ensures h[i] == BroadcastHidden(inputWeight, ones, data, n, g)[i]
    {
    }
  }

  /** A hidden row after the first depends on its own sample only: the same
      sample at any later position of any batch gives the same row. */
  lemma HiddenRowLocal(inputWeight: Matrix, bias: seq<real>, data: Matrix, data': Matrix, n: nat, g: real -> real, i: nat, i': nat)
    requires IsMatrix(inputWeight, |bias|, n) && IsMatrix(data, |data|, n) && IsMatrix(data', |data'|, n)
    requires 1 <= i < |data| && 1 <= i' < |data'| && data[i] == data'[i']
    ensures HiddenMatrix(inputWeight, bias, data, n, g).value[i] == HiddenMatrix(inputWeight, bias, data', n, g).value[i']
  {
  }

  // ---------------------------------------------------------------------
  // Output weights
  // ---------------------------------------------------------------------

  /** Which closed form solves for β: the m x m system in sample space, or
      the l x l system in hidden-feature space. */
  datatype Regime = SampleSpace | FeatureSpace

  /** The order of the linear system a regime solves. */
  function SystemOrder(regime: Regime, m: nat, l: nat): nat
  {
    match regime
    case SampleSpace => m
    case FeatureSpace => l
  }

  /** `__build_output_weight_matrix__`: the regime whose system is the
      smaller, the feature-space one on a tie. */
  function SelectRegime(m: nat, l: nat): (r: Regime)
    ensures SystemOrder(r, m, l) <= m && SystemOrder(r, m, l) <= l
    ensures SystemOrder(r, m, l) == m || SystemOrder(r, m, l) == l
    ensures m == l ==> r == FeatureSpace
  {
    if m < l then SampleSpace else FeatureSpace
  }

  /** A regularised linear system, coefficients · x = rhs. */
  datatype System = System(coefficients: Matrix, rhs: Matrix)

  /** `__beta_m_is_greater_than_l__`'s system: (Hᵀ·W·H + I_l/C) x = Hᵀ·W·T. */
  function FeatureSpaceSystem(h: Matrix, w: Matrix, t: Matrix, m: nat, l: nat, d: nat, c: real): (s: System)
    requires IsMatrix(h, m, l) && IsMatrix(w, m, m) && IsMatrix(t, m, d) && c != 0.0
    ensures IsMatrix(s.coefficients, l, l) && IsMatrix(s.rhs, l, d)
  {
    var htw := MatMul(Transpose(h, l), w, m);
    var inner := MatMul(htw, h, l);
    System(Add(inner, Divide(Identity(l), c), l), MatMul(htw, t, d))
  }

  /** `__beta_l_is_greater_than_m__`'s system: (W·H·Hᵀ + I_m/C) x = W·T. */
  function SampleSpaceSystem(h: Matrix, w: Matrix, t: Matrix, m: nat, l: nat, d: nat, c: real): (s: System)
    requires IsMatrix(h, m, l) && IsMatrix(w, m, m) && IsMatrix(t, m, d) && c != 0.0
    ensures IsMatrix(s.coefficients, m, m) && IsMatrix(s.rhs, m, d)
  {
    var inner := MatMul(MatMul(w, h, l), Transpose(h, l), m);
    System(Add(inner, Divide(Identity(m), c), m), MatMul(w, t, d))
  }

  /** The output weights β for a regime.  In feature space β is the
      solver's answer; in sample space the m x d answer is mapped back
      through Hᵀ, so β lies in the span of the hidden rows. */
  function OutputWeights(regime: Regime, h: Matrix, w: Matrix, t: Matrix, m: nat, l: nat, d: nat, c: real, solve: Solver): (beta: Matrix)
    requires IsMatrix(h, m, l) && IsMatrix(w, m, m) && IsMatrix(t, m, d) && c != 0.0
    requires IsShapeSolver(solve)
    ensures IsMatrix(beta, l, d)
    ensures regime == SampleSpace ==>
              exists y :: IsMatrix(y, m, d) && beta == MatMul(Transpose(h, l), y, d)
  {
    match regime
    case FeatureSpace =>
      var s := FeatureSpaceSystem(h, w, t, m, l, d, c);
      SolveShape(solve, s.coefficients, s.rhs, l, d);
      solve(s.coefficients, s.rhs)
    case SampleSpace =>
      var s := SampleSpaceSystem(h, w, t, m, l, d, c);
      SolveShape(solve, s.coefficients, s.rhs, m, d);
      var y := solve(s.coefficients, s.rhs);
      MatMul(Transpose(h, l), y, d)
  }

  /** With the default identity weights, the feature-space coefficient
      matrix Hᵀ·H + I/C is symmetric, and for C > 0 its diagonal is at
      least 1/C. */
  lemma FeatureSpaceSystemSymmetric(h: Matrix, t: Matrix, m: nat, l: nat, d: nat, c: real)
    requires IsMatrix(h, m, l) && IsMatrix(t, m, d) && c != 0.0
    ensures IsSymmetric(FeatureSpaceSystem(h, Identity(m), t, m, l, d, c).coefficients, l)
    ensures 0.0 < c ==> forall j :: 0 <= j < l ==>
              1.0 / c <= FeatureSpaceSystem(h, Identity(m), t, m, l, d, c).coefficients[j][j]
  {
    var ht := Transpose(h, l);
    MatMulIdentityRight(ht, m);
    var gram := MatMul(ht, h, l);
    assert MatMul(MatMul(ht, Identity(m), m), h, l) == gram;
    ColumnGramSymmetric(h, l);
    RegularisedSymmetric(gram, l, c);
  }

  /** With the default identity weights, the sample-space coefficient
      matrix H·Hᵀ + I/C is symmetric, and for C > 0 its diagonal is at
      least 1/C. */
  lemma SampleSpaceSystemSymmetric(h: Matrix, t: Matrix, m: nat, l: nat, d: nat, c: real)
    requires IsMatrix(h, m, l) && IsMatrix(t, m, d) && c != 0.0
    ensures IsSymmetric(SampleSpaceSystem(h, Identity(m), t, m, l, d, c).coefficients, m)
    ensures 0.0 < c ==> forall i :: 0 <= i < m ==>
              1.0 / c <= SampleSpaceSystem(h, Identity(m), t, m, l, d, c).coefficients[i][i]
  {
    MatMulIdentityLeft(h, l);
    var gram := MatMul(h, Transpose(h, l), m);
    assert MatMul(MatMul(Identity(m), h, l), Transpose(h, l), m) == gram;
    RowGramSymmetric(h, l);
    RegularisedSymmetric(gram, m, c);
  }

  // ---------------------------------------------------------------------
  // The regressor
  // ---------------------------------------------------------------------

  /** A trained regressor: the training data it keeps, its dimensions
      (M samples, N features, L hidden neurons, D outputs), the fixed input
      layer, H, β and the cached training predictions H·β. */
  datatype Regressor = Regressor(
    trainInputs: Matrix, targets: Matrix, weights: Matrix,
    samples: nat, features: nat, hidden: nat, outputs: nat,
    activation: real -> real, c: real,
    inputWeight: Matrix, bias: seq<real>,
    h: Matrix, beta: Matrix, trainedOutput: Matrix)
  {
    /** The shapes agree, H is the hidden matrix of the training inputs and
        the cached output is H·β. */
    ghost predicate Valid()
    {
      && 1 <= samples
      && IsMatrix(trainInputs, samples, features)
      && IsMatrix(targets, samples, outputs)
      && IsMatrix(weights, samples, samples)
      && c != 0.0
      && IsMatrix(inputWeight, hidden, features) && |bias| == hidden
      && HiddenMatrix(inputWeight, bias, trainInputs, features, activation) == Ok(h)
      && IsMatrix(h, samples, hidden)
      && IsMatrix(beta, hidden, outputs)
      && trainedOutput == MatMul(h, beta, outputs)
    }
  }

  /** Largest int CPython keeps as a shared object; `shape` builds fresh
      ints, so two equal counts above it are never the same object. */
  const SmallIntCacheMax: nat := 256

  /** The row check of `__init__` as written: the two row counts compared
      with `is`, which holds only for equal counts CPython shares. */
  function RowCheckAsWritten(m: nat, rows: nat): (ok: bool)
    ensures ok ==> m == rows
    ensures m == rows && m <= SmallIntCacheMax ==> ok
    ensures SmallIntCacheMax < m ==> !ok
  {
    m == rows && m <= SmallIntCacheMax
  }

  /** `WelmRegressor.__init__`, with the random input layer supplied.
      Fails when inputs and targets disagree on the sample count, when there
      are no samples, or when a supplied weight matrix is not M x M;
      otherwise the sample weights default to the identity and β is solved
      in the regime `SelectRegime` picks. */
  function Train(x: Matrix, n: nat, t: Matrix, d: nat, g: real -> real, l: nat, c: real,
                 weight: Option<Matrix>, inputWeight: Matrix, bias: seq<real>, solve: Solver): (r: Result<Regressor>)
    requires IsMatrix(x, |x|, n) && IsMatrix(t, |t|, d)
    requires Sampled(inputWeight, bias, l, n)
    requires c != 0.0 && IsShapeSolver(solve)
    ensures r.Ok? <==> |x| == |t| && 1 <= |x| && (weight.Some? ==> IsMatrix(weight.value, |x|, |x|))
    ensures |x| != |t| ==> r == Err(RowCountMismatch)
    ensures |x| == |t| == 0 ==> r == Err(NoSamples)
    ensures |x| == |t| && 1 <= |x| && weight.Some? && !IsMatrix(weight.value, |x|, |x|) ==> r == Err(WeightShape)
    ensures r.Ok? ==> r.value.Valid()
    ensures r.Ok? ==> r.value.trainInputs == x && r.value.targets == t && r.value.samples == |x|
                      && r.value.features == n && r.value.outputs == d && r.value.hidden == l
                      && r.value.activation == g && r.value.c == c
                      && r.value.inputWeight == inputWeight && r.value.bias == bias
    ensures r.Ok? ==> r.value.weights == (if weight.None? then Identity(|x|) else weight.value)
    ensures r.Ok? ==> r.value.beta == OutputWeights(SelectRegime(|x|, l), r.value.h, r.value.weights, t, |x|, l, d, c, solve)
  {
    if |x| != |t| then Err(RowCountMismatch)
    else
      var m := |x|;
      var w := if weight.None? then Identity(m) else weight.value;
      match HiddenMatrix(inputWeight, bias, x, n, g)
      case Err(e) => Err(e)
      case Ok(h) =>
        if !IsMatrix(w, m, m) then Err(WeightShape)
        else
          var beta := OutputWeights(SelectRegime(m, l), h, w, t, m, l, d, c, solve);
          Ok(Regressor(x, t, w, m, n, l, d, g, c, inputWeight, bias, h, beta, MatMul(h, beta, d)))
  }

  /** `get_projected`: predictions for a query matrix, from the query's
      hidden matrix (built with the stored input layer) times the stored β.
      The query must have the training feature count and at least one row. */
  function Project(model: Regressor, query: Matrix, cols: nat): (r: Result<Matrix>)
    requires model.Valid() && IsMatrix(query, |query|, cols)
    ensures r.Ok? <==> cols == model.features && 1 <= |query|
    ensures cols != model.features ==> r == Err(ColumnCountMismatch)
    ensures cols == model.features && |query| == 0 ==> r == Err(NoSamples)
    ensures r.Ok? ==> IsMatrix(r.value, |query|, model.outputs)
    ensures r.Ok? ==> forall i, k :: 0 <= i < |query| && 0 <= k < model.outputs ==>
              r.value[i][k] == Dot(HiddenMatrix(model.inputWeight, model.bias, query, cols, model.activation).value[i],
                                   Column(model.beta, k))
  {
    if cols != model.features then Err(ColumnCountMismatch)
    else
      match HiddenMatrix(model.inputWeight, model.bias, query, cols, model.activation)
      case Err(e) => Err(e)
      case Ok(hq) => Ok(MatMul(hq, model.beta, model.outputs))
  }

  /** Projecting the training inputs reproduces the cached training
      predictions. */
  lemma ProjectTrainingInputs(model: Regressor)
    requires model.Valid()
    ensures Project(model, model.trainInputs, model.features) == Ok(model.trainedOutput)
  {
  }

  /** A prediction for a row after the first depends only on that row: the
      same sample at any later position of any query batch is predicted the
      same. */
  lemma ProjectRowLocal(model: Regressor, q: Matrix, q': Matrix, i: nat, i': nat)
    requires model.Valid()
    requires IsMatrix(q, |q|, model.features) && IsMatrix(q', |q'|, model.features)
    requires 1 <= i < |q| && 1 <= i' < |q'| && q[i] == q'[i']
    ensures Project(model, q, model.features).value[i] == Project(model, q', model.features).value[i']
  {
    var n := model.features;
    var hq := HiddenMatrix(model.inputWeight, model.bias, q, n, model.activation).value;
    var hq' := HiddenMatrix(model.inputWeight, model.bias, q', n, model.activation).value;
    HiddenRowLocal(model.inputWeight, model.bias, q, q', n, model.activation, i, i');
    MatMulRowLocal(hq, hq', model.beta, model.outputs, i, i');
  }

  /** Training then projecting the training inputs yields predictions
      shaped like the targets. */
  lemma TrainProjectShape(x: Matrix, n: nat, t: Matrix, d: nat, g: real -> real, l: nat, c: real,
                          inputWeight: Matrix, bias: seq<real>, solve: Solver)
    requires IsMatrix(x, |x|, n) && IsMatrix(t, |x|, d) && 1 <= |x|
    requires Sampled(inputWeight, bias, l, n)
    requires c != 0.0 && IsShapeSolver(solve)
    ensures Train(x, n, t, d, g, l, c, None, inputWeight, bias, solve).Ok?
    ensures IsMatrix(Project(Train(x, n, t, d, g, l, c, None, inputWeight, bias, solve).value, x, n).value, |x|, d)
  {
    var model := Train(x, n, t, d, g, l, c, None, inputWeight, bias, solve).value;
    ProjectTrainingInputs(model);
  }

  /** The `is` row check rejects every training set of more than 256 rows,
      though the counts agree; `Train`, which compares the counts, accepts
      it. */
  lemma RowCheckRejectsLargeTrainingSets(x: Matrix, n: nat, t: Matrix, d: nat, g: real -> real, l: nat, c: real,
                                         inputWeight: Matrix, bias: seq<real>, solve: Solver)
    requires IsMatrix(x, |x|, n) && IsMatrix(t, |x|, d) && SmallIntCacheMax < |x|
    requires Sampled(inputWeight, bias, l, n)
    requires c != 0.0 && IsShapeSolver(solve)
    ensures !RowCheckAsWritten(|x|, |t|)
    ensures Train(x, n, t, d, g, l, c, None, inputWeight, bias, solve).Ok?
  {
  }

  /** `get_trained_accuracy`: `rmse` of the cached training predictions
      against the targets.  It raises when there are no output columns;
      otherwise it is a number (there is at least one sample), non-negative,
      and zero exactly on a perfect fit. */
  function TrainedAccuracy(model: Regressor): (r: Result<Option<real>>)
    requires model.Valid()
    ensures r.Err? <==> model.outputs == 0
    ensures r.Err? ==> r.error == EmptyAverage
    ensures r.Ok? ==> r.value.Some?
    ensures r.Ok? ==> 0.0 <= r.value.value
    ensures r.Ok? ==> (r.value.value == 0.0 <==> model.trainedOutput == model.targets)
  {
    if 0 < model.outputs then
      RmseZeroIffExact(model.trainedOutput, model.targets, model.samples, model.outputs);
      Rmse(model.trainedOutput, model.targets, model.samples, model.outputs)
    else
      Rmse(model.trainedOutput, model.targets, model.samples, model.outputs)
  }

  /** `get_trained_average_distance`: `aed` of the cached training
      predictions against the targets with the defaults (rows of 2 entries,
      conversion factor 1).  It fails when M·D is odd; when it succeeds it
      is non-negative and zero exactly on a perfect fit. */
  function TrainedAverageDistance(model: Regressor, sqrt: real -> real): (r: Result<Option<real>>)
    requires model.Valid() && IsSqrt(sqrt)
    ensures r.Ok? <==> (model.samples * model.outputs) % 2 == 0
    ensures r.Ok? ==> (r.value.None? <==> model.outputs == 0)
    ensures r.Ok? && r.value.Some? ==> 0.0 <= r.value.value
    ensures r.Ok? && r.value.Some? ==> (r.value.value == 0.0 <==> model.trainedOutput == model.targets)
  {
    TrainedDistanceFacts(model, sqrt);
    Aed(model.trainedOutput, model.targets, 2, 1.0, sqrt)
  }

  lemma TrainedDistanceFacts(model: Regressor, sqrt: real -> real)
    requires model.Valid() && IsSqrt(sqrt)
    ensures |Flatten(model.trainedOutput)| == |Flatten(model.targets)|
    ensures Reshapeable(model.trainedOutput, 2) <==> (model.samples * model.outputs) % 2 == 0
    ensures |Flatten(model.trainedOutput)| == 0 <==> model.outputs == 0
    ensures Reshapeable(model.trainedOutput, 2) && 0 < model.outputs ==>
              var a := Aed(model.trainedOutput, model.targets, 2, 1.0, sqrt).value;
              a.Some? && 0.0 <= a.value && (a.value == 0.0 <==> model.trainedOutput == model.targets)
  {
    var m, d := model.samples, model.outputs;
    FlattenLength(model.trainedOutput, m, d);
    FlattenLength(model.targets, m, d);
    assert m * d == 0 <==> d == 0 by {
      assert 0 < d ==> 0 < m * d by {
        if 0 < d {
          assert m * d >= d;
        }
      }
    }
    if Reshapeable(model.trainedOutput, 2) && 0 < d {
      FlattenInjective(model.trainedOutput, model.targets, m, d);
      AedZeroIffExact(model.trainedOutput, model.targets, 2, 1.0, sqrt);
    }
  }
}
