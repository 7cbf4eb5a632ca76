/** Option and Result, the failure-carrying values the model uses in place of
    Java's null references, Optional results and thrown exceptions. */
module Wrappers {

  datatype Option<+T> = None | Some(value: T)

  datatype Result<+R, +E> = Success(value: R) | Failure(error: E)
}
