/** Failure-carrying results used across the model.  A Python exception
    becomes an `Err` carrying the exception class and, for `ValueError`,
    which of the source's checks raised it. */
module Base {

  datatype Option<+T> = None | Some(value: T)

  /** The checks of the modelled code that raise a `ValueError`. */
  datatype Reason =
    | NotABlock               // the guard was handed something other than a Block
    | NotNumpyArrays          // LUT or indices is not an ndarray
    | IndicesSizeMismatch     // index count differs from the weight size
    | IndicesNotUInt8Vector   // indices are not a rank-1 uint8 vector
    | LutDtypeMismatch        // LUT dtype differs from the weight dtype
    | TooManyUniqueValues     // more unique weights than 2^nbits LUT slots
    | ThresholdWithDeprecated // weight_threshold given to the deprecated API
    | ThresholdMissing        // weight_threshold is None on the new API

  datatype Error =
    | ValueError(reason: Reason)
    | AssertionError
    | TypeError
    | IndexError
    | AttributeError
    | KeyError
    | ZeroDivisionError

  datatype Result<+T> = Ok(value: T) | Err(error: Error)

  /** The result of a validator that returns nothing but may raise. */
  datatype Outcome = Pass | Fail(error: Error)
}
