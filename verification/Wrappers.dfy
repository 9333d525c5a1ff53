/** Option, used for SQL NULLs, absent rows and operations that throw. */
module Wrappers {
  datatype Option<+T> = None | Some(value: T)
}
