/** Failure values of the converter: the two Python exceptions that can abort a run. */
module Errors {

  /** ValueError: a time, date or duration string that does not parse.
      IndexError: a row with too few fields. */
  datatype Failure = ValueError | IndexError

  datatype Option<T> = None | Some(value: T)

  /** The outcome of a step that may raise one of the exceptions above. */
  datatype Result<T> = Ok(value: T) | Err(error: Failure)
}
