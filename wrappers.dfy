/** An optional value: a JSON field that may be absent, a node that may not exist. */
module Wrappers {
  datatype Option<T> = Missing | Some(value: T)
}
