/** Option and Result, the two failure-carrying shapes the modelled code uses
    (Rust's `Option<T>` and `Result<T, E>`). */
module Wrappers {

  datatype Option<+T> = None | Some(value: T)

  datatype Result<+R, +E> = Success(value: R) | Failure(error: E) {

    /** Converts the error part, leaving a success untouched (Rust's `map_err`). */
    function MapFailure<NewE>(rewrap: E -> NewE): (r: Result<R, NewE>)
      ensures Success? <==> r.Success?
      ensures Success? ==> r.value == value
      ensures Failure? ==> r.error == rewrap(error)
    {
      match this
      case Success(v) => Success(v)
      case Failure(e) => Failure(rewrap(e))
    }
  }
}
