/** The conventional Some/None datatype, used for the optional fields of a decoded game record. */
module Wrappers {

  datatype Option<+T> = None | Some(value: T)
}
