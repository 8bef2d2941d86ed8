/** Values that may be absent, and outcomes of operations that may be refused. */
module Wrappers {

  datatype Option<+T> = None | Some(value: T)
}
