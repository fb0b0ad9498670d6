/** The optional value of the source's `Option`. */
module Wrappers {

  datatype Option<+T> = None | Some(value: T)
}
