/** Optional values, and the outcome of a call that the service may refuse. */
module Wrappers {

  datatype Option<+T> = None | Some(value: T)

  /** How a service call ends: done, or refused with the HTTP status it raises. */
  datatype Outcome = Done | NotFound | Forbidden | BadRequest | Conflict
}
