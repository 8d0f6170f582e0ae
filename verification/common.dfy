/** Small value types shared by the rule engine, the pickup rules and the
    subscription cleanup. */
module Common {

  /** A value that may be absent; Python's `None` on the model side. */
  datatype Option<+T> = None | Some(value: T)

  /** The outcome of an operation that raises on misuse in the source. */
  datatype Result<+T, +E> = Ok(value: T) | Err(error: E)

  /** A point in time, in microseconds (the resolution of a database
      datetime column). The clock itself is never read: callers pass `now`. */
  type Time = int

  /** Length of one minute in `Time` units. */
  const Minute: int := 60_000_000

  /** A database id of a user. */
  type UserId = int
}
