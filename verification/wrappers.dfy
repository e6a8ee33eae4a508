/** A value that may be absent: a registry lookup that finds nothing, or a
    null slot in the format map's priority order. */
module Wrappers {
  datatype Option<+T> = None | Some(value: T)
}
