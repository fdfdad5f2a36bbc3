/** Failure-carrying values used for the orchestrator's error paths. */
module Wrappers {

  datatype Option<+T> = None | Some(value: T)

  /** The result of an operation that the source either completes or aborts by raising. */
  datatype Result<+R, +E> = Ok(value: R) | Err(error: E)
}
