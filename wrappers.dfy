/** Failure-carrying datatypes used throughout the model. */
module Wrappers {

  datatype Option<+T> = None | Some(value: T)

  /** A value or the error that was raised instead. */
  datatype Result<+T, +E> = Ok(value: T) | Err(error: E)

  /** Success or the error that was raised, for operations that return nothing. */
  datatype Outcome<+E> = Pass | Fail(error: E)

  function Min(a: int, b: int): int { if a < b then a else b }
}

/** The errors the two nodes raise. In the source every one of them is a
    `knext.InvalidParametersError`; the constructor records which message. */
module Errors {

  datatype InvalidParameters =
    | CredentialsMissing      // token not in the environment, and no (non-empty) credential
    | SheetNotFound           // "Output sheet not found in Smartsheet"
    | RefColumnNotInInput     // "Reference column not found in input columns"
    | RefColumnNotInOutput    // "Reference column not found in output columns"
}
