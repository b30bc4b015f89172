/** Failure-carrying datatypes shared by every module of the model.

    The Python code signals failure by raising; each `Error` constructor
    names one of the exceptions the modelled code can raise. */
module Outcomes {

  /** A value that may be missing, as `dict.get` returns `None` for a missing key. */
  datatype Option<+T> = None | Some(value: T)

  /** The exceptions the modelled engine raises. */
  datatype Error =
    /** `ValueError`: the half-cell folder does not exist. */
    | FolderNotFound(path: string)
    /** `ValueError` from `x_values, y_values = zip(*rows)`: the rows do not
        zip into exactly two columns. */
    | NotTwoColumns(file: string)
    /** A curve without samples: `interp1d` on its empty window slice
        raises `ValueError`, before `x[e:f][0]` could raise `IndexError`. */
    | EmptyCurve
    /** `ValueError` from numpy: the measured arrays cannot be broadcast
        against, or differentiated along, the 1001-point reconstruction. */
    | ShapeMismatch
    /** `ValueError` from `min()` of an empty sequence. */
    | EmptyMinimum
    /** `ValueError` from `np.linspace` asked for a negative number of samples. */
    | NegativeSampleCount
    /** Min-max normalisation against a window of zero span (numpy would
        fill the axis with NaN). */
    | ZeroSpan

  datatype Result<+T> = Ok(value: T) | Err(error: Error)
}
