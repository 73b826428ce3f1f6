/** Failure-carrying values used throughout the crawl model. */
module Wrappers {

  /** A value that may be absent, like an unset attribute or a missing DOM node. */
  datatype Option<+T> = None | Some(value: T)

  /** The outcome of a step that either yields a value or raises an error. */
  datatype Result<+T, +E> = Success(value: T) | Failure(error: E)
}
