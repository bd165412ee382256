/** Small value types shared by the modules of the fabric model: an optional
    value (Python's `None` or a value), the outcome of a call that may raise,
    and the Python exceptions the modelled code can raise. */
module Results {

  datatype Option<T> = None | Some(value: T) {
    /** The value, or `default` when there is none. */
    function GetOr(default: T): T
    {
      match this
      case Some(v) => v
      case None => default
    }
  }

  /** The Python exceptions that the modelled code can raise. */
  datatype PyException =
    | KeyError    // lookup of a missing key in a dict without default factory
    | TypeError   // item assignment on an object that does not support it
    | NameError   // use of a name that was never bound

  /** A call that either returns a value or raises. */
  datatype Result<T> = Success(value: T) | Failure(error: PyException)

  /** A call that either returns normally (without a value) or raises. */
  datatype Outcome = Pass | Fail(error: PyException)
}
