/** What the model's partial functions return. */
module Wrappers {
  datatype Option<T> = None | Some(value: T)
}
