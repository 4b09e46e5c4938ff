/** The Option datatype used throughout the model for Go's nil-able values. */
module Wrappers {

  /** `None` stands for Go's nil (a nil map, a nil pointer, an absent link). */
  datatype Option<+T> = None | Some(value: T)

  /** A value or an error message, for Go functions that return `(T, error)`. */
  datatype Result<+T> = Success(value: T) | Failure(error: string)
}
