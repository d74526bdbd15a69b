/** Java's nullable references, for the fields the source allows to be null. */
module Wrappers {

  datatype Option<+T> = None | Some(value: T)
}
