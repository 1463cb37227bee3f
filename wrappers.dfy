/** The optional value used wherever the parsers' JavaScript yields `null` or `NaN`. */
module Wrappers {

  datatype Option<+T> = None | Some(value: T)
}
