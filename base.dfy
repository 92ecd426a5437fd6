/** Failure-carrying wrappers shared by every module of the model. */
module Base {

  /** Rust's `Option`. */
  datatype Option<T> = None | Some(value: T)

  /** Rust's `Result<T, Box<dyn Error>>`; the boxed error is kept as its message. */
  datatype Result<T> = Ok(value: T) | Err(error: string)
}
