/** The optional value used where the source keeps `None` or a value. */
module Wrappers {

  datatype Option<+T> = None | Some(value: T)
}
