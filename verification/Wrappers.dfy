/** The one optional-value type the model uses where the program returns None. */
module Wrappers {
  datatype Option<+T> = None | Some(value: T)
}
