/** The optional value used for lookups that can fail (a JSON parse, a match). */
module Wrappers {
  datatype Option<+T> = None | Some(value: T)
}
