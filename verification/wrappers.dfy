/** The Option type shared by the other modules: a null callback, an absent
    table entry or a failed parse is None. */
module Wrappers {
  datatype Option<+T> = None | Some(value: T)
}
