/** The failure-compatible result of the filter's fallible operations.
    An error carries the human-readable message the host receives. */
module Results {

  datatype Result<+T> = Ok(value: T) | Err(message: string) {

    /** True if this is an error */
    predicate IsFailure() {
      Err?
    }

    /** Re-types an error so that `:-` can propagate it, as Rust's `?` does */
    function PropagateFailure<U>(): Result<U>
      requires Err?
    {
      Err(message)
    }

    /** The value of a success */
    function Extract(): T
      requires Ok?
    {
      value
    }
  }
}
