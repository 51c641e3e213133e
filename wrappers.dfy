/** The optional value used for "this line carries no payload" and "no qualifying event". */
module Wrappers {
  datatype Option<+T> = None | Some(value: T)
}
