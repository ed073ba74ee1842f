/** Failure-carrying return types shared by the modules of this model.
    A JavaScript value that may be `null` becomes an Option; an operation
    whose source throws becomes a Result whose Failure names the cause. */
module Wrappers {

  /** A possibly-null value: None stands for JSON/JavaScript `null`. */
  datatype Option<+T> = None | Some(value: T)

  /** Either the new state or the reason the handler threw. */
  datatype Result<+T, +E> = Success(value: T) | Failure(error: E)
}
