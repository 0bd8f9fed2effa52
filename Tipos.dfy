/** Small wrappers shared by every module: an optional value (Python's None). */
module Tipos {
  datatype Option<T> = None | Some(value: T)
}
