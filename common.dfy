/** Shared wrapper datatypes: an optional value (a JSON field that may be
    missing or null) and a result that is either a value or an error. */
module Common {

  datatype Option<+T> = None | Some(value: T)

  datatype Result<+T, +E> = Success(value: T) | Failure(error: E)

  /** Python's `x or default` for an optional string: a missing, null or
      empty value gives the default. */
  function OrDefault(s: Option<string>, default: string): string
  {
    if s.None? || s.value == "" then default else s.value
  }
}
