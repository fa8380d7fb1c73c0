/** The option type used for the source's `null` answers. */
module Wrappers {

  datatype Option<+T> = None | Some(value: T)
}
