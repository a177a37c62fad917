/** The optional value used for absent arguments and unset array slots. */
module Wrappers {
  datatype Option<+T> = None | Some(value: T)
}
