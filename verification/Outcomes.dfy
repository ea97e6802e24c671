/** Result datatypes shared by the modules. */
module Outcomes {

  datatype Option<+T> = None | Some(value: T)

  /** A call ends with a value, with an error value, or by panicking. */
  datatype Outcome<+T, +E> = Done(value: T) | Failed(error: E) | Panicked
}
