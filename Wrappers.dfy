/** Plain result types for where the Java code returns `null` or throws:
    `Option` for a nullable reference, `CallResult` for a call that either
    returns a value or raises an exception. */
module Wrappers {

  datatype Option<+T> = None | Some(value: T) {
    function GetOr(default: T): T {
      match this
      case Some(v) => v
      case None => default
    }
  }

  /** The result of calling a collaborator that may throw: `Threw` stands for
      any exception, whose type and message the model does not keep. */
  datatype CallResult<+T> = Returned(value: T) | Threw
}
