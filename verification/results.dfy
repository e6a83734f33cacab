/** Error-carrying results, standing for Rust's `Result<T, String>`,
    `Result<(), String>` and `Option<T>`. Every error of the program is a
    message string, so the error type is fixed to `string`. */
module Results {

  /** A value, or the message of the error that prevented it. */
  datatype Result<T> = Success(value: T) | Failure(error: string)

  /** A mutation that either went through or failed with a message. */
  datatype Outcome = Pass | Fail(error: string)

  /** A value that may be absent, as Rust's `Option<T>`. */
  datatype Option<T> = None | Some(value: T)
}
