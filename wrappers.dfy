/** Absence as data: the sampler reports a missing metric as `None`
    and an aborted call as `Failure` instead of raising. */
module Wrappers {

  datatype Option<+T> = None | Some(value: T)

  datatype Result<+R> = Success(value: R) | Failure
}
