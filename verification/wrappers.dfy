/** Optional values and fallible results, used for the pointers that may be
    NULL and the calls that may fail with an error. */
module Wrappers {

  /** A value that may be absent (a NULL pointer in the C code). */
  datatype Option<+T> = None | Some(value: T)

  /** A value, or the error that prevented computing it. */
  datatype Result<+R, +E> = Success(value: R) | Failure(error: E)
}
