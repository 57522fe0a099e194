/** The optional value: a JavaScript `null`, `undefined` or SQL NULL. */
module Wrappers {

  datatype Option<+T> = None | Some(value: T)
}
