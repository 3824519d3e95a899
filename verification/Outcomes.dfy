/** Results of operations that may refuse their input. */
module Outcomes {

  datatype Option<+T> = None | Some(value: T)

  /** `Refused` carries the error class or the refusal code the source raises. */
  datatype Result<+T, +E> = Accepted(value: T) | Refused(error: E)
}
