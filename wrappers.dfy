/** Optional values and results with an error message, used for the
    source's `null` returns and thrown errors. */
module Wrappers {

  datatype Option<+T> = None | Some(value: T)

  /** A computation that either returns a value or throws an Error whose
      message is `message`. */
  datatype Result<+T> = Ok(value: T) | Err(message: string)

  /** A computation with no result value that either completes or throws. */
  datatype Outcome = Done | Threw(message: string)

}
