/** The Python values the modelled code passes around besides strings and numbers:
    `None`-or-value, and what a call ends with (a value or a propagating exception). */
module Values {

  datatype Option<+T> = None | Some(value: T)

  /** The exceptions the modelled code lets propagate: indexing a list past its end,
      and the HTTP client's own timeout, which the retry handler does not name. */
  datatype Exception = IndexError | ClientTimeout

  /** What a Python call ends with: a returned value or a propagating exception. */
  datatype Outcome<+T> = Value(value: T) | Raised(error: Exception)
}
