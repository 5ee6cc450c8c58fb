/** The optional value used wherever the C code hands back a NULL pointer. */
module Wrappers {

  datatype Option<+T> = None | Some(value: T)

}
