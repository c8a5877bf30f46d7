/** Failure-carrying results shared by every module of the model. */
module Wrappers {

  datatype Option<+T> = None | Some(value: T) {
    function GetOr(default: T): T {
      match this
      case Some(v) => v
      case None => default
    }
  }

  /** The outcome of a request handler: a success status with its JSON body,
      or an HTTP error status with the message the server puts in the body. */
  datatype Outcome<+T> = Success(status: int, value: T) | Failure(code: int, message: string)

  /** JavaScript truthiness of an optional string: absent (`undefined`) and the
      empty string are both falsy. */
  predicate Present(s: Option<string>) {
    s.Some? && s.value != ""
  }
}
