/** The parser's "null" results: a failed sub-parse returns None. */
module Wrappers {
  datatype Option<+T> = None | Some(value: T)
}
