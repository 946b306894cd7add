/** Option, Result and the possibility of a panic, shared by every module of the model. */
module Results {

  /** `Option<T>`: a value that may be absent. */
  datatype Option<+T> = None | Some(value: T) {
    /** `unwrap_or`: the value, or `default` when absent. */
    function UnwrapOr(default: T): T {
      if Some? then value else default
    }
  }

  /** `Result<T, E>`, usable with `:-` the way Rust's `?` is used. */
  datatype Result<+T, +E> = Ok(value: T) | Err(error: E) {
    predicate IsFailure() {
      Err?
    }

    function PropagateFailure<U>(): Result<U, E>
      requires Err?
    {
      Err(error)
    }

    function Extract(): T
      requires Ok?
    {
      value
    }
  }

  /** What a Rust function does: it either returns a value or panics
      (an out-of-range slice, an `unwrap` of an error). */
  datatype Outcome<+T> = Returned(value: T) | Panicked
}
