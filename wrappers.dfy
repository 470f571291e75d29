/** Optional values, results with errors, and the outcome of an external unmarshalling call. */
module Wrappers {

  /** A value that may be absent; `None` stands for a Java `null`. */
  datatype Option<+T> = None | Some(value: T)

  /** A computed value, or the error that stopped the computation. */
  datatype Result<+R, +E> = Success(value: R) | Failure(error: E)

  /** What an external XML facade returns: a parsed value, or the failure it threw. */
  datatype Parsed<+T> = Parsed(value: T) | Unparsable(reason: string)
}
