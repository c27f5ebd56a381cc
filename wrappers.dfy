/** The optional-value type used for the model's "no result" and error paths. */
module Wrappers {

  datatype Option<+T> = None | Some(value: T)
}
