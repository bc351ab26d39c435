// What several modules say a result with.

module Wrappers {

  datatype Option<T> = None | Some(value: T)
}
