/** Small failure-carrying datatypes shared by the model. */
module Wrappers {

  /** A value that may be absent (a C# null). */
  datatype Option<+T> = None | Some(value: T)

  /** The outcome of a call that either returns a value or throws an exception
      carrying a message (the exception's `Message`). */
  datatype Try<+T> = Ok(value: T) | Threw(message: string)
}
