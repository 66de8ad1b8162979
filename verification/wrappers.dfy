/** The optional value used wherever the script's lookups or parses can come back empty. */
module Wrappers {

  datatype Option<+T> = None | Some(value: T)
}
