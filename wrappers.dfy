/** The optional value that stands for a JavaScript property which may be `undefined`. */
module Wrappers {

  datatype Option<+T> = None | Some(value: T)
}
