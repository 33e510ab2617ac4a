/** A value that may be absent: a request field or environment variable that is
    `undefined` (or `null`) in the JavaScript handlers is `None` here. */
module Wrappers {

  datatype Option<+T> = None | Some(value: T)
}
