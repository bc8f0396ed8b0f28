/** Option and Result, the shapes of Rust's `Option` and `Result` used throughout the model. */
module Wrappers {

  datatype Option<+T> = None | Some(value: T)

  datatype Result<+T, +E> = Ok(value: T) | Err(error: E) {

    /** Rust's `unwrap_or`: the success value, or `default` on an error. */
    function UnwrapOr(default: T): (r: T)
      ensures Ok? ==> r == value
      ensures Err? ==> r == default
    {
      match this
      case Ok(v) => v
      case Err(_) => default
    }
  }
}
