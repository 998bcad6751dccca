/** The outcome of a call into a library routine that may throw. */
module Wrappers {

  /** `None` stands for "the library call threw an exception". */
  datatype Option<+T> = None | Some(value: T)
}
