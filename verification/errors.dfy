/** Error values of the configuration tree, and the Option/Result wrappers that carry them.
    Go's `(value, error)` pairs become `Result`, and a nil error becomes `None`. */
module Errors {

  /** The error kinds the tree operations return. */
  datatype Error =
    | UnexpectedType(path: string, actual: string, expected: string)  // ErrUnexpectedType
    | PathInsideValue(path: string)                                   // ErrPathInsideValue
    | ElementNotFound(path: string)                                   // ErrElementNotFound
    | ConversionFailed(reason: string)                                // only ever returned by Number's abstract conversions

  datatype Option<+T> = None | Some(value: T)

  /** A value, or the error that replaced it. */
  datatype Result<+T> = Ok(value: T) | Err(error: Error)
}
