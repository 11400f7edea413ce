/** An optional value, used where the source has a nullable reference or a
    sentinel that stands for "no value yet". */
module Wrappers {
  datatype Option<+T> = None | Some(value: T)
}
