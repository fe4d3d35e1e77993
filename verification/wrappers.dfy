/** Optional values and results with an error message, shared by every module. */
module Wrappers {
  datatype Option<T> = None | Some(value: T)
  {
    function GetOr(default: T): T
    {
      match this
      case None => default
      case Some(v) => v
    }
  }

  datatype Result<T> = Success(value: T) | Failure(error: string)
  {
    predicate IsFailure() { Failure? }
  }
}
