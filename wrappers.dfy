/** The optional value used for a page title that may be missing. */
module Wrappers {

  datatype Option<+T> = None | Some(value: T)
}
