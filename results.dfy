/**
 * Option and Result types shared by every module of the model.
 * A `Failure` stands for the Python exception the source would raise.
 */
module Results {

  /** The Python exceptions the modelled code can raise. */
  datatype Error =
    | ZeroDivisionError   // a ratio whose denominator is zero
    | KeyError            // a dictionary lookup of a missing key
    | IndexError          // a list index past the end
    | ValueError          // int() of a string that is not an integer

  datatype Option<+T> = None | Some(value: T)

  datatype Result<+T> = Success(value: T) | Failure(error: Error)
}
