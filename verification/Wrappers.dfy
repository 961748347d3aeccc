/** Results that may be missing. */
module Wrappers {
  import opened Bytes

  datatype Option<+T> = None | Some(value: T)

  /** What a reader of bytes gives: nothing, or a value and the bytes it left. */
  datatype Got<+T> = No | Got(value: T, rest: seq<byte>)
}
