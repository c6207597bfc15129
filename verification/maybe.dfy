/** Values that may be missing, for every place where the analyzer catches
    an exception and goes on with a fallback. */
module Maybe {

  /** `None` is an identity-service call that raised. */
  datatype Option<T> = None | Some(value: T) {

    /** The answer, or `fallback` when there is none. */
    function GetOr(fallback: T): T {
      if Some? then value else fallback
    }
  }

  /** An accepted value, or why it was refused. */
  datatype Result<T, E> = Success(value: T) | Failure(error: E)
}
