/** Option and Result: `undefined` and thrown exceptions of the TypeScript source, as values. */
module Wrappers {

  datatype Option<+T> = None | Some(value: T)

  datatype Result<+R, +E> = Success(value: R) | Failure(error: E)
}
