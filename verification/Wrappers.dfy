/** Failure-carrying values for the services' null results and thrown exceptions. */
module Wrappers {
  datatype Option<+T> = None | Some(value: T) {
    function GetOr(default: T): T {
      match this
      case Some(v) => v
      case None => default
    }
  }

  /** The exceptions a service method can raise instead of returning a value. */
  datatype Error = NotFound | Conflict | Invalid | NoActiveChain | NoValidSteps

  datatype Result<+T> = Success(value: T) | Failure(error: Error)
}
