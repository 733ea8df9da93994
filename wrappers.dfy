/** Failure-carrying result types used for the source's thrown errors and null returns. */
module Wrappers {

  datatype Option<+T> = None | Some(value: T)

  datatype Result<+T, +E> = Success(value: T) | Failure(error: E)

  /** The outcome of an operation that returns nothing but may throw. */
  datatype Outcome<+E> = Pass | Fail(error: E)

  function ToOutcome<T, E>(r: Result<T, E>): (o: Outcome<E>)
    ensures o.Pass? <==> r.Success?
    ensures o.Fail? ==> o.error == r.error
  {
    match r
    case Success(_) => Pass
    case Failure(e) => Fail(e)
  }
}
