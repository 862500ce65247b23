/** Values that may be absent: a missing key, an open end of an interval, a rejected call. */
module Wrappers {
  datatype Option<+T> = None | Some(value: T)
}
