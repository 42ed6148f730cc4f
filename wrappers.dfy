/** An optional value: a JavaScript `null` or `undefined`, or a present value. */
module Wrappers {
  datatype Option<+T> = None | Some(value: T)
}
