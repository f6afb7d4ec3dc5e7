/** Option and Result values shared by the modules of the model. */
module Wrappers {

  /** A value that may be absent: JavaScript's `undefined`/`null`, a missing
      field, or a search that found nothing. */
  datatype Option<+T> = None | Some(value: T)

  /** The completion of JavaScript code that may throw: its value, or the
      `TypeError` raised by calling a method on a value of the wrong type. */
  datatype Result<+T> = Ok(value: T) | TypeError
}
