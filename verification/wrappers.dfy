/** The optional-value datatype used for the parser's active key and for searches. */
module Wrappers {

  datatype Option<+T> = None | Some(value: T)
}
