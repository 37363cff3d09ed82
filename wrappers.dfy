/** Option and Result values used for the optional configuration fields and
    for operations that either succeed or raise an error. */
module Wrappers {

  datatype Option<+T> = None | Some(value: T)

  /** A JavaScript promise that either resolves with a value or rejects with an
      error whose message is carried here. */
  datatype Result<+R> = Success(value: R) | Failure(message: string)
}
