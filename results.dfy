/** Outcome types shared by the model: `Option` for lookups that may miss,
    `Result` for operations that return an error instead of a value, and
    `Outcome` for calls that either finish or panic. */
module Results {

  datatype Option<+T> = None | Some(value: T)

  datatype Result<+T, +E> = Ok(value: T) | Err(error: E)

  /** A call either finishes with a value or panics (a failed `expect`, an
      explicit `panic!`, an index out of range). */
  datatype Outcome<+V> = Done(value: V) | Panic

}
