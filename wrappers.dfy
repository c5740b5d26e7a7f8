/** The optional value returned by every stage that may silently skip. */
module Wrappers {

  datatype Option<+T> = None | Some(value: T)
}
