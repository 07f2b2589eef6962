/** The two small result wrappers the model uses in place of JavaScript's `null` and thrown errors. */
module Wrappers {

  /** `None` stands for the `null`/`undefined` of the source. */
  datatype Option<+T> = None | Some(value: T)

  /** `Failure` stands for an error that escapes to the top of the program. */
  datatype Result<+R, +E> = Success(value: R) | Failure(error: E)
}
