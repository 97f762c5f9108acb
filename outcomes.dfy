/** What an operation of the core gives back: a value, or the Python exception it raises. */
module Outcomes {

  /** The exceptions the core can raise. */
  datatype Error =
    | KeyError        // indexing a bare record with a position
    | OverflowError   // a rescheduled date outside years 1 to 9999
    | IndexError      // date text with fewer than three dash-separated fields
    | ValueError      // a date field int() cannot read, or date text strptime rejects

  datatype Result<T> = Ok(value: T) | Err(error: Error)

  datatype Option<T> = None | Some(value: T)
}
