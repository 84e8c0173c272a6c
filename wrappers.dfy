/** Optional values, results, and the Python exceptions the display code can raise. */
module Wrappers {

  datatype Option<+T> = None | Some(value: T)

  datatype Result<+R, +E> = Success(value: R) | Failure(error: E)

  /** The two built-in exceptions that can escape the modelled code paths. */
  datatype PyError =
    | KeyError(key: string)   // a dictionary lookup with a missing key
    | IndexError              // indexing an empty list
}
