/** The optional value used for every field of the receipt record that may be absent. */
module Wrappers {

  datatype Option<+T> = None | Some(value: T)
}
