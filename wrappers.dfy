/** The usual optional-value datatype; the detector uses it where the source starts a field as None. */
module Wrappers {

  datatype Option<+T> = None | Some(value: T)
}
