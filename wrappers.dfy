/** The optional value used by the navigation library (Kone's `Maybe`). */
module Wrappers {

  datatype Option<+T> = None | Some(value: T)
}
