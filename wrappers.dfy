/** Option and Result values, and the error kinds of Rust's `std::io::Error` that the drivers use. */
module Wrappers {
  datatype Option<T> = None | Some(value: T)

  datatype Result<T, E> = Ok(value: T) | Err(error: E)

  /** The `std::io::ErrorKind` values the drivers produce or test for. */
  datatype ErrorKind =
    | InvalidInput
    | InvalidData
    | NotFound
    | NotConnected
    | BrokenPipe
    | TimedOut
    | WouldBlock
    | Other

  /** An `io::Error`: its kind and its message text. */
  datatype IoError = IoError(kind: ErrorKind, message: string)

  /** The outcome of one USB or serial transfer: the byte count, or an error. */
  type IoResult = Result<nat, IoError>
}
