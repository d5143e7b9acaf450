/** The optional-value wrapper used for JavaScript's `null`/`undefined` and for failed requests. */
module Wrappers {

  datatype Option<+T> = None | Some(value: T)

}
