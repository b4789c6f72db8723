/** Failure-carrying datatypes shared by the model.
- Option<T> stands for Rust's `Option<T>`;
- Result<T> stands for `Result<T, String>`, the error type every provider
  operation uses.
 */
module Wrappers {

  /** Rust's `Option<T>`. */
  datatype Option<+T> = None | Some(value: T) {

    /** Rust's `Option::unwrap_or`: the held value, or `default` when absent. */
    function UnwrapOr(default: T): T {
      match this
      case Some(v) => v
      case None => default
    }
  }

  /** Rust's `Result<T, String>`. */
  datatype Result<+T> = Ok(value: T) | Err(error: string)
}
