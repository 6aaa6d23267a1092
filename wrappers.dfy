/** The conventional optional value, used for the results of calls that can fail. */
module Wrappers {

  datatype Option<+T> = None | Some(value: T)
}
