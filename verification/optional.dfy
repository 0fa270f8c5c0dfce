/** Option and Result, the failure-carrying wrappers used throughout the model. */
module Optional {

  datatype Option<+T> = None | Some(value: T) {

    /** The wrapped value, or `default` when there is none. */
    function GetOr(default: T): T {
      match this
      case Some(v) => v
      case None => default
    }

    /** Applies `f` to the wrapped value, if any. */
    function Map<U>(f: T -> U): (r: Option<U>)
      ensures r.Some? <==> Some?
    {
      match this
      case Some(v) => Some(f(v))
      case None => None
    }
  }

  datatype Result<+T, +E> = Success(value: T) | Failure(error: E)
}
