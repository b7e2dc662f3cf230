# WELM regressor — a Dafny model

This project models the core of `WELM.py`: the `WelmRegressor` class, which is a
Weighted Extreme Learning Machine for regression, and the piecewise-linear
members of the `ActFunc` activation catalogue. All arithmetic is over Dafny `real`. The
model captures the structure of the linear algebra, not floating-point rounding.

- **Activations** (`activation.dfy`, module `ActFunc`): `tribas`, `inv_tribas`
  and `softlim`, built on `np.clip`, and `hardlim`, the unit step
  `(x > 0) * 1.0`.
- **Matrices** (`matrices.dfy`, module `Matrices`): `seq<seq<real>>` with the
  shape predicate `IsMatrix(a, r, c)`, plus the NumPy operations the regressor
  uses. These are the product, transpose, identity, ones block,
  `np.append(axis=1)`, element-wise `+`, `/` and activation, and the row-major
  flattening behind `reshape`.
- **Sums** (`sums.dfy`) and **outcomes** (`results.dfy`): finite sums and means,
  `Option` and `Result`. `None` stands for the NaN that NumPy returns for the
  mean of an empty array. `Err` stands for an `AssertionError`, `ValueError` or
  `ZeroDivisionError` raised by a shape check or an average over an empty axis.
- **Metrics** (`metrics.dfy`): `rmse`, `eds` and `aed`.
- **Regressor** (`welm.dfy`, module `Welm`) covers construction (`Train`), the
  hidden-matrix builder, the regime selector, both regularised systems,
  projection and the two trained-fit metrics.

Points where the code differs from the textbook weighted-ELM formulation of the
paper cited in WELM.py:1-6, or where that formulation leaves a choice open. The
model follows the code in each case:

- The hidden-matrix builder does not broadcast the bias. It adds the bias
  column followed by a block of ones. So only the first sample of a batch gets
  the sampled biases, and every later sample gets +1.0 in every neuron
  (`HiddenMatrix`, `HiddenMatrixVersusBroadcast`). As a result, a prediction
  for the first row of a query uses different biases from the same sample
  placed anywhere else in the batch (`ProjectRowLocal`).
- `rmse` averages the per-column mean squared errors, and takes no square root.
  Every column has the same number of rows, so this equals the mean of all
  M·D squared errors (`RmseIsMeanOfAllSquaredErrors`). The two conventions
  therefore never differ.
- The sample-space ("wide") regime is chosen only when M < L. When M == L the
  feature-space system is solved (`SelectRegime`).

Parameters stand in for what cannot be modelled. The input weights and biases
replace `np.random.rand`; `Sampled` records the ranges that call draws from.
`solve` replaces `np.linalg.lstsq`, and `IsShapeSolver` assumes only the shape
of its answer. The activation `g` replaces the activation function. `sqrt`
replaces `np.sqrt`, and `IsSqrt` requires a non-negative root that squares
back to its argument.

## Model

| member | source | states |
|---|---|---|
| `ActFunc.Tribas` | WELM.py:12 | The result is in [0,1]. It equals 1 − \|x\| when \|x\| ≤ 1, and 0 when \|x\| ≥ 1. |
| `ActFunc.InvTribas` | WELM.py:15 | The result is in [0,1]. It equals \|x\| when \|x\| ≤ 1, and 1 when \|x\| ≥ 1. |
| `ActFunc.Hardlim` | WELM.py:21 | The result is exactly 1 when x > 0 and exactly 0 otherwise. |
| `ActFunc.Softlim` | WELM.py:23 | The result is in [0,1]. It equals x when x is already in [0,1], 0 when x < 0, and 1 when x > 1. |
| `ActFunc.Clip` | WELM.py:12-23 | `np.clip` returns the point of [lo, hi] nearest to x: x itself inside the interval, otherwise the bound x passed. |
| `ActFunc.TribasComplementsInvTribas` | WELM.py:12-15 | tribas(x) + inv_tribas(x) = 1 for every x. |
| `ActFunc.InvTribasIsSoftlimOfAbs` | WELM.py:15-23 | inv_tribas(x) = softlim(\|x\|). |
| `ActFunc.TribasEven` | WELM.py:12-15 | Both triangular activations are even functions. |
| `ActFunc.SoftlimMonotone` | WELM.py:23 | softlim is monotone. |
| `ActFunc.HardlimIsSteepSoftlim` | WELM.py:21-23 | For a slope k > 0, softlim(k·x) = hardlim(x) whenever x ≤ 0 or k·x ≥ 1. |
| `Welm.PreActivation` | WELM.py:159-174 | (w·dataᵀ + [bias \| ones])ᵀ has shape R×L. Entry [i][j] is w[j]·data[i] + bias[j] when i = 0, and w[j]·data[i] + 1 when i > 0. |
| `Welm.HiddenMatrix` | WELM.py:156-176 | Fails exactly when the data has no rows, because the ones block would need −1 columns. Otherwise the result is R×L, with [i][j] = g(w[j]·data[i] + (bias[j] if i = 0 else 1)). |
| `Welm.HiddenMatrixVersusBroadcast` | WELM.py:161-170 | Row 0 equals the textbook broadcast-bias row. Every later row equals the broadcast row computed with all biases set to 1. |
| `Welm.HiddenRowLocal` | WELM.py:159-176 | A hidden row after the first depends only on its own sample. The same sample at any later position of any batch gives the same row. |
| `Welm.SelectRegime` | WELM.py:178-182 | The solved system has order min(M, L): it is at most both and equal to one of them. When M == L the feature-space (L×L) system is chosen. |
| `Welm.FeatureSpaceSystem` | WELM.py:184-191 | Hᵀ·W·H + I_L/C is L×L, and the right-hand side Hᵀ·W·T is L×D. |
| `Welm.SampleSpaceSystem` | WELM.py:195-209 | W·H·Hᵀ + I_M/C is M×M, and the right-hand side W·T is M×D. |
| `Welm.OutputWeights` | WELM.py:178-211 | In both regimes β is L×D when the solver returns an answer shaped like its right-hand side. In the sample-space regime β = Hᵀ·Y for some M×D matrix Y. |
| `Welm.FeatureSpaceSystemSymmetric` | WELM.py:185-189 | With the default identity weights, Hᵀ·H + I/C is symmetric. For C > 0 its diagonal is at least 1/C. |
| `Welm.SampleSpaceSystemSymmetric` | WELM.py:199-205 | With the default identity weights, H·Hᵀ + I/C is symmetric. For C > 0 its diagonal is at least 1/C. |
| `Welm.RowCheckAsWritten` | WELM.py:43-44 | The `is` check succeeds only when the counts are equal. It succeeds for equal counts up to 256. It fails for every count above 256, because CPython shares int objects only up to 256 and `shape` builds fresh ones. |
| `Welm.RowCheckRejectsLargeTrainingSets` | WELM.py:43-44 | For any training set of more than 256 rows with matching targets, the check as written fails, yet `Train`, which compares the counts, succeeds. |
| `Welm.Train` | WELM.py:37-87 | Construction fails with a row-count error when X and T have different row counts, fails when there are no samples, and fails when a supplied weight matrix is not M×M. Otherwise the weights default to I_M, H comes from the given input layer, β comes from the selected regime, and the cached output is H·β, with all shapes consistent. |
| `Welm.Project` | WELM.py:90-101 | Fails exactly when the query's column count differs from training, or when the query has no rows. Otherwise the result is (query rows)×D, and entry [i][k] is the query's hidden row i, built from the stored input layer, times column k of the stored β. |
| `Welm.ProjectTrainingInputs` | WELM.py:87-99 | Projecting the training inputs gives exactly the cached training predictions. |
| `Welm.ProjectRowLocal` | WELM.py:96-101 | A prediction for any row after the first depends only on that row's sample. |
| `Welm.TrainProjectShape` | WELM.py:37-101 | For matching X and T with at least one row, construction succeeds and projecting X has the shape of T. |
| `Welm.TrainedAccuracy` | WELM.py:103-107 | Fails (`EmptyAverage`, NumPy's `ZeroDivisionError`) exactly when D = 0. Otherwise it is a number, because there is at least one sample. That number is non-negative, and zero exactly when H·β = T. |
| `Welm.TrainedAverageDistance` | WELM.py:109-113 | `aed` with the defaults (rows of 2 entries, factor 1) fails exactly when M·D is odd, and is NaN exactly when D = 0. Otherwise it is non-negative, and zero exactly when H·β = T. |
| `Metrics.Rmse` | WELM.py:139-146 | Fails (`EmptyAverage`) exactly when there are no columns, because `np.average` over axis 0 then divides 0 by 0. It is NaN exactly when there are columns but no rows. Otherwise it is a number. |
| `Metrics.RmseIsMeanOfAllSquaredErrors` | WELM.py:145-146 | When there is at least one column, the average of the column MSEs equals the mean of all R·C squared errors. That includes the NaN case of R = 0. |
| `Metrics.RmseZeroIffExact` | WELM.py:145-146 | For R, C > 0, `rmse` is a number. It is non-negative, and zero exactly when the predictions equal the targets. |
| `Metrics.Reshape` | WELM.py:120-121 | `reshape(-1, d)` gives \|entries\|/d rows of d entries, and holds the same entries in the same row-major order. |
| `Metrics.Eds` | WELM.py:127-137 | Fails exactly when `dimensions` is not positive or does not divide the entry count. Otherwise it gives one value per reshaped row. Each value times the factor is the non-negative square root of that row's squared Euclidean distance. Every value is non-negative when the factor is positive. |
| `Metrics.Aed` | WELM.py:115-125 | Fails on the same inputs as `eds`. It is NaN exactly when there are no entries. |
| `Metrics.AedIsMeanOfEds` | WELM.py:115-137 | `aed` equals the mean of `eds` for the same arguments, including failure and NaN. |
| `Metrics.EdsZeroIffExact` | WELM.py:132-137 | Every per-row distance is zero exactly when predictions and targets hold the same entries in the same order. |
| `Metrics.AedZeroIffExact` | WELM.py:120-125 | With a positive factor and at least one entry, `aed` is non-negative, and zero exactly when predictions and targets hold the same entries. |
| `Metrics.SquaredDistance` | WELM.py:125 | A squared distance is non-negative, and zero exactly when the two rows are equal. |
| `Matrices.ChunksFlatten` | WELM.py:120-121 | Flattening a matrix whose rows have d entries, then cutting it into rows of d, gives back the matrix. |
| `Matrices.FlattenChunks` | WELM.py:120-121 | Cutting entries into rows of d, then flattening, gives back the entries. |

## Left out

- Sigmoid, sine and tanh (WELM.py:18, 26, 29) are transcendental. The regressor takes its activation as a parameter `g`.
- `np.random.rand` (WELM.py:148-154) is left out. The input weights and biases are parameters instead. `Sampled` requires the ranges the draw produces, [-1, 1) and [0, 1).
- `np.linalg.lstsq` (WELM.py:193, 211) is left out. The solver is a parameter, and only the shape of its answer is assumed.
- Welm.OutputWeights: does not state that β minimises the regularised residual, or that the two regimes give the same β. The code never checks either, and the solver is abstract.
- `np.sqrt` in `aed`/`eds` is a parameter constrained by `IsSqrt`.
- Floating-point rounding, overflow, and infinities from dividing by zero are not modelled. The model requires C ≠ 0 and a conversion factor ≠ 0, where NumPy would instead produce `inf` or NaN.
- The row check at WELM.py:43 compares the counts with `is` (object identity). `Welm.Train` compares them with `==`; see "## Findings".
- A supplied weight matrix that is not M×M makes construction fail in the source. Depending on its shape and the regime, the failure comes at a matrix product (WELM.py:185, 191, 199, 209), at the `+ i_by_c` broadcast (WELM.py:205), or in `np.linalg.lstsq` (WELM.py:211), which rejects a 1×D right-hand side against the M×M system. `Welm.Train` reports all of these as one error, `WeightShape`, after the row-count and empty-data checks. It does not distinguish which NumPy call raised it.
- Metrics.Rmse: predictions and targets are required to have the same shape. NumPy broadcasting of differently shaped arrays is not modelled.
- Metrics.Eds, Metrics.Aed: predictions and targets are required to have the same number of entries. Broadcasting of a single reshaped row against many is not modelled.
- Inputs that `np.matrix` would reshape, such as 1-D arrays, are not modelled. The regressor's members require 2-D matrices.
- Metrics.Eds, Metrics.Aed: only require equal entry counts, not rectangular rows. On a ragged row sequence, which `np.array` at WELM.py:120-121 and 132-133 does not turn into a 2-D array of numbers, they return the distances of the row-major entries instead of failing. This is a property of the encoding as `seq<seq<real>>`; every caller in the model passes a rectangular matrix.
- `main.py` is not part of this model: CSV loading, column selection, missing-value fill, printing and the `procrustes`/`util_functions` calls.
- Side-effect freedom and repeatability of projection need no contract, because every operation is a pure function of its arguments.

## Findings

| source | as written | input that shows it | evidently intended | confidence | as-written member | corrected member |
|---|---|---|---|---|---|---|
| WELM.py:43-44 | The assert compares the two row counts with `is`, which tests the identity of two freshly built ints. | Any X and T with the same number of rows above 256, e.g. 257: CPython shares ints only up to 256, so the assert fails. | Equal row counts, `==`, as the assert message says. | not executed; it depends on CPython's small-int cache, an implementation detail | `Welm.RowCheckAsWritten`, `Welm.RowCheckRejectsLargeTrainingSets` | `Welm.Train`, with `Welm.TrainProjectShape` (accepts matching X and T of any size ≥ 1) |
