/** A value that may be missing, as `dict.get(key)` returns one or `None`. */
module Wrappers {

  datatype Option<T> = None | Some(value: T)

  /** `dict.get(key, fallback)` once the lookup is done: the value found, else the fallback. */
  function ValueOr<T>(found: Option<T>, fallback: T): T {
    if found.Some? then found.value else fallback
  }
}
