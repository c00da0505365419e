/** The optional value used wherever the source has `string | null`. */
module Wrappers {

  datatype Option<+T> = None | Some(value: T)
}
