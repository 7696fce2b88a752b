/** The optional value the script expresses with `null`. */
module Wrappers {

  datatype Option<+T> = None | Some(value: T)
}
