/** The optional value used for the JavaScript `null` hover point and for
    numeric results that are not finite (Infinity or NaN). */
module Wrappers {
  datatype Option<+T> = None | Some(value: T)
}
