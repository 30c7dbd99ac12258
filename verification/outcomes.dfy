/** Optional values and the one failure the pipeline can raise by itself. */
module Outcomes {

  /** A dictionary key that may be absent. */
  datatype Option<+T> = None | Some(value: T) {
    function GetOr(default: T): T {
      match this
      case Some(v) => v
      case None => default
    }
  }

  /** Python's IndexError, carrying the index that was out of range. */
  datatype Error = IndexOutOfRange(index: nat)

  datatype Result<+T> = Success(value: T) | Failure(error: Error)
}
