/** Small value types shared by the pages: optional values and the outcome
    of a request to the diary's REST API, supplied by the caller instead of
    being performed. */
module Wrappers {

  datatype Option<+T> = None | Some(value: T)

  /** A request that returns a payload: it either succeeds with the payload
      or fails (network, non-2xx or authentication error alike). */
  datatype Outcome<+T> = Ok(value: T) | Err

  /** A request whose payload is ignored (`patch`, `delete`). */
  datatype Status = Done | Failed
}
