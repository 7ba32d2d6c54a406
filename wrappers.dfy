/** The optional value used wherever the source has `undefined` or `None`. */
module Wrappers {

  datatype Option<+T> = None | Some(value: T)
}
