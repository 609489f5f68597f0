/** The optional value the program uses for `Option<T>`. */
module Wrappers {
  datatype Option<+T> = None | Some(value: T)
}
