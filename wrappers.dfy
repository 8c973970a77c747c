/** The optional value used for results that may be absent (a failed bit decode, a rejected frame). */
module Wrappers {

  datatype Option<+T> = None | Some(value: T)
}
