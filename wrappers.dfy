/** The optional value returned by the interval operations that may fail to produce a range. */
module Wrappers {

  datatype Option<+T> = None | Some(value: T)
}
