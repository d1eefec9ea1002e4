/** The usual Option datatype, used for values JavaScript may leave `undefined`
    and for parsers that can fail. */
module Wrappers {
  datatype Option<+T> = None | Some(value: T)
}
