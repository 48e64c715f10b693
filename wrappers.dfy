/** Option and Result values for the Go (value, error) return pairs. */
module Wrappers {

  datatype Option<+T> = None | Some(value: T)

  /** Either a value or an error message (Go's `error` reduced to its text). */
  datatype Result<+T> = Success(value: T) | Failure(message: string)
}
