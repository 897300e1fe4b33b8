/** The optional values used for C arguments that may be NULL and for reads that may fail. */
module Wrappers {

  datatype Option<+T> = None | Some(value: T)
}
