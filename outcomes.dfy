/** The Python-level outcomes of the modelled code: a value, Python's `None`,
    or an exception that escapes the function. */
module Outcomes {

  /** `None` is Python's `None`; `Some(v)` is an ordinary return value. */
  datatype Option<+T> = None | Some(value: T)

  /** The exceptions the modelled code lets escape. */
  datatype PyError =
    | ValueError       // str.index finds nothing
    | TypeError        // `None > 0`
    | StatisticsError  // statistics.mean of an empty list

  /** A return value, or an exception that propagates to the caller. */
  datatype Result<+T> = Ok(value: T) | Raises(error: PyError)
}
