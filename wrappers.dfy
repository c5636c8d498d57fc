/** The optional value used for cells that pandas reports as missing and for
    coercions that can fail. */
module Wrappers {
  datatype Option<+T> = None | Some(value: T)
}
