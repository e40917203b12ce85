/** The optional value shared by the component models: `null`, `undefined` or a missing key in the source. */
module Wrappers {
  datatype Option<+T> = None | Some(value: T)
}
