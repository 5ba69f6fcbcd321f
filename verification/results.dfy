/** Failure-carrying wrappers shared by every module of the model. */
module Results {

  /** A value that may be absent: Python's `None`, JavaScript's `undefined`,
      or a dictionary key that is not there. */
  datatype Option<+T> = None | Some(value: T) {

    /** The wrapped value, or `default` when absent (`d.get(k, default)`). */
    function GetOr(default: T): T {
      match this
      case Some(v) => v
      case None => default
    }
  }

  /** The outcome of a Python function that may raise: either it returned
      `value`, or an exception escaped it, described by `reason`. */
  datatype Result<+T> = Ok(value: T) | Raised(reason: string)
}
