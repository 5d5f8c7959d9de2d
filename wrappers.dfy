/** The optional-value datatype used for parse results and for a log file that may be absent. */
module Wrappers {

  datatype Option<+T> = None | Some(value: T)
}
