/** Option, Result and Outcome: the model's stand-ins for null/undefined results and thrown errors. */
module Wrappers {

  datatype Option<+T> = None | Some(value: T)
  {
    /** The value, or `default` when there is none (the `??` of the source). */
    function GetOr(default: T): T
    {
      match this
      case Some(v) => v
      case None => default
    }
  }

  /** A computation that either returns a value or throws an error. */
  datatype Result<+R, +E> = Success(value: R) | Failure(error: E)

  /** A check that either passes or throws an error. */
  datatype Outcome<+E> = Pass | Fail(error: E)
}
