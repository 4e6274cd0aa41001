/** Option and Result, used for values that may be missing (a storage lookup)
    and for operations that the source lets throw (parsing a key, parsing JSON). */
module Wrappers {

  datatype Option<+T> = None | Some(value: T)

  datatype Result<+T, +E> = Success(value: T) | Failure(error: E)
}
