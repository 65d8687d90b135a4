/** The two fatal conditions of the coding engine, as results instead of
    exceptions. */
module Outcomes {

  datatype Error =
    | SizeMismatch              // subtracting sketches of different sizes
    | InvalidDegree(count: int) // a decodable coded symbol whose degree is not -1, 0 or 1
    | OutOfFuel                 // the decoding pass reached its step bound

  /** The result of an operation that returns nothing or fails. */
  datatype Outcome = Ok | Fail(error: Error)

  /** The result of an operation that returns a value or fails. */
  datatype Result<T> = Success(value: T) | Failure(error: Error)
}
