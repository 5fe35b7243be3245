/** The two failure-carrying datatypes the model uses: Python's optional values
    (`None` or a value) and an operation that either succeeds or raises. */
module Wrappers {

  datatype Option<+T> = None | Some(value: T)

  datatype Result<+R, +E> = Success(value: R) | Failure(error: E)
}
