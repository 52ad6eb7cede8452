/** Option and Result, as used throughout the model for JavaScript's
    `undefined` and for thrown errors. */
module Wrappers {

  datatype Option<+T> = None | Some(value: T)

  /** A computation that either returns a value or throws an `Error` whose
      `message` is the string it was constructed with. */
  datatype Result<+R> = Success(value: R) | Failure(message: string)
}
