/** The optional value used for every "may be absent" input and result. */
module Wrappers {

  datatype Option<+T> = None | Some(value: T)
}
