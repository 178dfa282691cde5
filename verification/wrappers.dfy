/** The Rust `Option` and `Result` shapes used by the other modules. */
module Wrappers {

  /** A value that may be absent. */
  datatype Option<T> = Some(value: T) | None {

    /** `unwrap_or`: the carried value, or `fallback` when there is none. */
    function UnwrapOr(fallback: T): T {
      if Some? then value else fallback
    }
  }

  /** Success with a value, or failure with an error. */
  datatype Result<T, E> = Ok(value: T) | Err(error: E)
}
