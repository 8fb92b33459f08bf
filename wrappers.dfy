/** Value wrappers shared by the other modules. */
module Wrappers {

  /** The outcome of an operation that can raise. */
  datatype Result<+T, +E> = Ok(value: T) | Err(error: E)

  /** A cell of a pandas float column: a number, or NaN where no value exists. */
  datatype Cell = NaN | Num(value: real)
}
