/** An optional value: an argument that JavaScript callers may leave undefined. */
module Wrappers {

  datatype Option<+T> = None | Some(value: T)
}
