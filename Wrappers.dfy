/** Option and Result: the model's stand-ins for `null`/`undefined` and for thrown errors. */
module Wrappers {

  datatype Option<+T> = None | Some(value: T)

  /** `Failure(e)` is a thrown `Error` whose `message` is `e`. */
  datatype Result<+R> = Success(value: R) | Failure(error: string)

  /** The outcome of an `async` call whose resolved value is not used. */
  datatype Outcome = Pass | Fail(error: string)
}
