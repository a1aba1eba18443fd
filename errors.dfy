/** Failure-compatible wrappers and the error taxonomy shared by the money
    value type and the banks. */
module Errors {

  datatype Option<+T> = None | Some(value: T)

  /** The exceptions the library raises, one constructor per exception class. */
  datatype Error =
    | UnknownCurrency     // Money::Currency::UnknownCurrency
    | UnknownRate         // Money::Bank::UnknownRate
    | UnknownRateFormat   // Money::Bank::UnknownRateFormat
    | DifferentCurrency   // Money::Bank::DifferentCurrencyError
    | TypeError           // Ruby's TypeError for a wrong operand kind
    | ZeroDivision        // Ruby's ZeroDivisionError
    | NotImplemented      // Ruby's NotImplementedError (abstract bank)
    | MalformedRateKey    // an imported key that is not "FROM_TO_TO"

  datatype Result<+T> = Ok(value: T) | Err(error: Error)
}
