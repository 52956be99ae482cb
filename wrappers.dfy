/** The conventional optional value, used where the source ignores input it does not recognise. */
module Wrappers {
  datatype Option<+T> = None | Some(value: T)
}
