/** The optional value used for JavaScript's `null`/`undefined` results and for parse failures. */
module Wrappers {

  datatype Option<+T> = None | Some(value: T)
}
