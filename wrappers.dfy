/** The Option and Result datatypes shared by the model. */
module Wrappers {

  /** An optional value; `None` stands for a Java `null` reference. */
  datatype Option<T> = None | Some(value: T)

  /** The outcome of an operation that either succeeds or throws one of the declared checked exceptions. */
  datatype Result<R, E> = Success(value: R) | Failure(error: E)
}
