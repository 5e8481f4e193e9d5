/** Option and Result, the two failure-carrying shapes the model uses in
    place of Rust's `Option`, `Result` and panics. */
module Wrappers {

  /** Rust's `Option<T>`, with the two combinators the state merge uses. */
  datatype Option<+T> = None | Some(value: T) {

    /** `Option::or`: this value if present, otherwise `other`. */
    function Or(other: Option<T>): Option<T> {
      match this
      case Some(_) => this
      case None => other
    }

    /** `Option::map`: applies `f` to the carried value. */
    function Map<U>(f: T -> U): Option<U> {
      match this
      case Some(v) => Some(f(v))
      case None => None
    }

    /** `Option::unwrap_or`: the carried value, or `default` when absent. */
    function UnwrapOr(default: T): T {
      match this
      case Some(v) => v
      case None => default
    }
  }

  /** Rust's `Result<T, E>`. */
  datatype Result<+T, +E> = Success(value: T) | Failure(error: E)
}
