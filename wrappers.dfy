/** The optional value used for fetch results and returned errors. */
module Wrappers {

  datatype Option<+T> = None | Some(value: T)

}
