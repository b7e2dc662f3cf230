/** Outcome datatypes shared by the model.

    NumPy reports a shape error by raising (an `AssertionError` from the
    regressor's own checks, a `ValueError` from `np.ones`, `reshape` or a
    matrix product, a `ZeroDivisionError` from `np.average` over an empty
    axis); the model returns `Err` with the cause instead.  The mean of an
    empty array is NaN rather than an exception; the model returns `None` for
    it.
 */
module Results {

  /** `None` stands for a NaN produced by averaging an empty array. */
  datatype Option<+T> = None | Some(value: T)

  /** Why a construction, projection or metric call fails. */
  datatype Error =
    | RowCountMismatch     // training inputs and targets disagree on the sample count
    | ColumnCountMismatch  // a query has a different feature count from the training data
    | NoSamples            // zero rows: the ones block of the bias matrix would have -1 columns
    | WeightShape          // the sample weight matrix is not M x M
    | ReshapeFailure       // the entries cannot be cut into rows of `dimensions` entries
    | EmptyAverage         // `np.average(axis=0)` of an array with no columns divides 0 by 0

  datatype Result<+T> = Ok(value: T) | Err(error: Error)
}
