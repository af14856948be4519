/** The optional-value and result datatypes shared by every module of the model. */
module Wrappers {

  datatype Option<T> = None | Some(value: T)

  /** The outcome of an operation that either yields a value or fails with a message. */
  datatype Result<T> = Ok(value: T) | Err(error: string)
}

/** The notifications (toasts) the client components raise. */
module Feedback {
  datatype Toast = Success(message: string) | Failure(message: string)
}
