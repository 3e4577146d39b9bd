/** Failure-compatible wrappers shared by the other modules. */
module Wrappers {

  /** A value that may be missing; `None` also stands for numpy's NaN where a mean is empty. */
  datatype Option<+T> = None | Some(value: T)

  /** Either the value a step computed or the exception it raised. */
  datatype Result<+T, +E> = Success(value: T) | Failure(error: E)

  /** The exceptions `plot_confusion_matrix` can raise on its numeric path. */
  datatype Error =
    | LengthMismatch            // sklearn's ValueError for label arrays of different lengths
    | LabelOutOfRange(item: int)  // IndexError from `classes[item]`
    | ThresholdUnbound          // UnboundLocalError when `thresh` is read but was never set
}
