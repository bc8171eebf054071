/** The optional value used where the Java code returns `null` or throws. */
module Wrappers {

  datatype Option<+T> = None | Some(value: T)
}
