/** Optional values and fallible results, used for nullable columns, provider
    calls that may fail and route handlers that answer with an HTTP error. */
module Results {

  /** Python's `None` or a present value. */
  datatype Option<+T> = None | Some(value: T) {

    /** Python's `x or fallback` where `x` is either a value or `None`: the
        value when present, `fallback` otherwise. */
    function OrElse(fallback: T): T {
      if Some? then value else fallback
    }
  }

  /** An operation's outcome: a value, or the error it raised in the
      source. */
  datatype Result<+T, +E> = Success(value: T) | Failure(error: E)
}
