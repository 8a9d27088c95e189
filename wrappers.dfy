/** Small value wrappers shared by the other modules. */
module Wrappers {

  /** A value that may be missing. */
  datatype Option<+T> = None | Some(value: T)

  /** The outcome of an operation that can raise an error. */
  datatype Result<+R, +E> = Success(value: R) | Failure(error: E)

  /** An object member that TypeScript declares as `name?: T | null`: the key may be
      missing, present with `null`, or present with a value. JSON text tells the three
      apart, so they stay distinct here. */
  datatype Field<+T> = Undefined | Null | Value(value: T)
}
