/** Failure signals of the matrix engine. The C++ code throws
    `std::out_of_range` for bad indices and `std::invalid_argument` for
    operands of incompatible shape; here both become values. */
module Results {

  /** The two exception kinds the engine raises. */
  datatype Error = OutOfRange | DimensionMismatch

  datatype Option<+T> = None | Some(value: T)

  /** The outcome of an operation that produces a value or throws. */
  datatype Result<+T> = Ok(value: T) | Err(error: Error)
}
