/** Option and Result values, and the failures the tracker can report. */
module Outcomes {

  datatype Option<T> = None | Some(value: T)

  /** The failures a request can end in. */
  datatype Error =
    | NotFound          // unknown user, or no History for the requested (user, date)
    | ValidationError   // a request field is missing, null, not a decimal or out of bounds
    | MalformedDate     // the `date` query parameter does not parse as %Y-%m-%d
    | DecimalOverflow   // a value does not fit the digits of the column it is saved into
    | DivisionByZero    // percent of a zero goal: a division by zero, or 0/0 when nothing was drunk

  datatype Result<T> = Ok(value: T) | Err(error: Error)
}
