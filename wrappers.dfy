/** The optional value used for properties a JavaScript object may lack. */
module Wrappers {

  datatype Option<+T> = None | Some(value: T)
}
