/** Option and Result: the two shapes through which the registry's queries
    report an absent value or a failure. */
module Wrappers {

  datatype Option<T> = None | Some(value: T) {
    /** The wrapped value, or `default` when there is none (Rust's `unwrap_or`). */
    function UnwrapOr(default: T): T {
      if Some? then value else default
    }
  }

  datatype Result<T, E> = Ok(value: T) | Err(error: E) {
    /** Applies `f` to a success value and passes an error through. */
    function MapOk<U>(f: T -> U): Result<U, E> {
      if Ok? then Ok(f(value)) else Err(error)
    }
  }
}
