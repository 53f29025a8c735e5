/** Optional values, the outcome of an operation that may report an error, and how a request to a server can end. */
module Wrappers {
  datatype Option<+T> = None | Some(value: T)

  datatype Result<+T, +E> = Success(value: T) | Failure(error: E)

  /** The connection during one request: up, or cut before or after the server has carried it out. */
  datatype Line = Up | CutBefore | CutAfter
}
