/** The optional value used where the scheduler returns `null` or a value. */
module Wrappers {

  datatype Option<+T> = None | Some(value: T)
}
