/** The optional value used wherever the editor returns `null` for "nothing". */
module Wrappers {
  datatype Option<T> = None | Some(value: T)
}
