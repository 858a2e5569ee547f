/** Option, for `undefined`, and Result, for a computation that may throw. */
module Wrappers {

  datatype Option<+T> = None | Some(value: T)

  /** A computation that either returns a value or throws a JavaScript error. */
  datatype Result<+T> = Ok(value: T) | Throws(error: JsError)

  /** The JavaScript exceptions the modelled code can raise. */
  datatype JsError =
    | RangeError   // String.fromCodePoint given NaN or a value outside 0..0x10FFFF
    | TypeError    // a property read on `undefined`
}
