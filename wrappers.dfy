/** The optional value used wherever the source returns `None` or a dictionary `get` can miss. */
module Wrappers {
  datatype Option<+T> = None | Some(value: T)
}
