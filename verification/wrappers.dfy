/** Option, the conventional stand-in for an absent value or a call that threw. */
module Wrappers {

  datatype Option<+T> = None | Some(value: T)

}
