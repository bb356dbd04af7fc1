/** The optional value used for absent fields and for lookups that can fail. */
module Wrappers {

  datatype Option<+T> = None | Some(value: T)
}
