/** A value that may be absent: a page element that is missing, or a JSON field that is not there. */
module Wrappers {
  datatype Option<T> = None | Some(value: T)
}
