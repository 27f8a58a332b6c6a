/** An optional value, for results the application may not produce. */
module Wrappers {
  datatype Option<T> = None | Some(value: T)
}
