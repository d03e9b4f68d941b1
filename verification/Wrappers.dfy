/** The two stock result types used throughout. */
module Wrappers {

  datatype Option<+T> = None | Some(value: T)

  datatype Result<+T, +E> = Ok(value: T) | Err(error: E)
}

/** Exceptions, told apart only as the code tells them apart: those deriving
    from DruncException and all others. */
module Exceptions {

  datatype Exn = Drunc | Unhandled
}
