/** The optional value used wherever the source passes `None` or a value. */
module Wrappers {

  datatype Option<+T> = None | Some(value: T)

}
