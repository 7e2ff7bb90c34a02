/** Nullable values and operations that may throw, as values. */
module Wrappers {

  /** A C# nullable (`T?`): either nothing or a value. */
  datatype Option<T> = None | Some(value: T)
  {
    /** The `??` operator: the value, or `fallback` when there is none. */
    function GetOr(fallback: T): T
    {
      if Some? then value else fallback
    }
  }

  /** The outcome of an operation that either returns a value or throws. */
  datatype Result<T, E> = Ok(value: T) | Err(error: E)
}
