/** The optional value used for the replies the extension receives from the browser. */
module Wrappers {
  datatype Option<+T> = None | Some(value: T)
}
