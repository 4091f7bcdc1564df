/** The optional value used for fields a request or an API record may lack. */
module Wrappers {
  datatype Option<+T> = None | Some(value: T)
}
