/** The optional value used for a request field that may be absent (`request.get` returning None). */
module Wrappers {
  datatype Option<+T> = None | Some(value: T)
}
