/** Optional values and results with an error, used wherever the program returns `None`
    or raises an exception. */
module Outcomes {

  datatype Option<T> = None | Some(value: T)

  datatype Result<T, E> = Ok(value: T) | Err(error: E)

  /** The result of an operation that changes state in place and may raise. */
  datatype Outcome<E> = Pass | Fail(error: E)
}
