/** Failure-carrying values used by every other module. */
module Wrappers {
  datatype Option<+T> = None | Some(value: T)

  datatype Result<+T, +E> = Ok(value: T) | Err(error: E)

  /** What a state becomes when an operation on it may be rejected. */
  function OrElse<T, E>(r: Result<T, E>, before: T): T {
    match r
    case Ok(after) => after
    case Err(_) => before
  }
}
