/** Optional values and results, in place of `null` and of thrown errors. */
module Wrappers {
  datatype Option<+T> = None | Some(value: T)

  datatype Result<+T, +E> = Success(value: T) | Failure(error: E)

  function Max(x: nat, y: nat): nat {
    if x < y then y else x
  }
}
