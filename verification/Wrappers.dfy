/** Optional values and throwing results, as the Swift code uses `T?` and `throws`. */
module Wrappers {

  /** Swift's `Optional`: `nil` is `None`. */
  datatype Option<+T> = None | Some(value: T)

  /** The outcome of a Swift initialiser declared `throws(E)`. */
  datatype Result<+T, +E> = Success(value: T) | Failure(error: E)
}
