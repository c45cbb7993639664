/** The optional value used for nullable slots and "nothing found" results. */
module Wrappers {

  datatype Option<+T> = None | Some(value: T)
}
