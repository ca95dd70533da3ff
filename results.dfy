/** Option and Result: the nullable return plus NSError out-parameter of the
    bridge become a single tagged result. */
module Results {

  datatype Option<+T> = None | Some(value: T) {
    /** Swift's `??`: the wrapped value, or the fallback when there is none. */
    function GetOr(fallback: T): T {
      match this
      case Some(v) => v
      case None => fallback
    }
  }

  datatype Result<+T, +E> = Success(value: T) | Failure(error: E)
}
