/** The exceptions raised by the numeric kernel, and the two failure-carrying
    wrappers every fallible operation returns instead of raising. */
module Errors {

  /** One constructor per exception class the modelled code raises. */
  datatype MathError =
    | VectorSizeMismatch
    | MatrixDimensionMismatch
    | MatrixRowMismatch
    | MatrixColumnMismatch
    | MatrixRowColumnMismatch
    | MatrixNotSquare
    | IndexError
    | ValueError
    | KeyError
    | ZeroDivisionError
    | TypeError

  /** The value of an operation that returns something, or the exception it raised. */
  datatype Result<+T> = Ok(value: T) | Err(error: MathError)

  /** An optional value, as Python's None or a found one. */
  datatype Option<+T> = None | Some(value: T)

  /** The outcome of an operation that returns nothing. */
  datatype Outcome = Pass | Fail(error: MathError)
}
