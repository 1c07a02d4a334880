/** Nullable references, the exceptions the services throw, and results that carry either. */
module Common {

  /** A Java reference that may be null. */
  datatype Option<+T> = None | Some(value: T) {

    /** The value, or `default` when null (`x != null ? x : default`). */
    function GetOr(default: T): T {
      match this
      case Some(v) => v
      case None => default
    }
  }

  /** The exceptions the services raise. */
  datatype Error =
    | AccessDenied    // Spring Security's AccessDeniedException
    | Domain          // the application's DomainException
    | NotFound        // the application's ResourceNotFoundException
    | NullReference   // a NullPointerException from dereferencing null
    | Constraint      // the database rejects a row (a null in a non-null column)
    | Remote          // a call to another service fails (the e-mail client's FeignException)

  /** A value-returning service call: it returns a value or throws. */
  datatype Result<+T> = Ok(value: T) | Err(error: Error)

  /** A void service call: it returns normally or throws. */
  datatype Outcome = Pass | Fail(error: Error)

  /**
   * A call that runs without a transaction: the state it has saved by the
   * time it returns or throws, and how it ended. Saves made before an
   * exception are not undone.
   */
  datatype Saved<+T> = Saved(state: T, outcome: Outcome)
}
