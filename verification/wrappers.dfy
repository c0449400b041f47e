/** Failure-carrying datatypes shared by the whole model. A Python call that
    raises is modelled as a `Failure`; one that returns as a `Success`. */
module Wrappers {

  /** A value that may be absent (Python `None`, a missing attribute, no reply). */
  datatype Option<+T> = None | Some(value: T)

  /** The outcome of a call that either returns a value or raises an error. */
  datatype Result<+T, +E> = Success(value: T) | Failure(error: E)
}
