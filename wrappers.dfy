/** An optional value: stands for PHP's `null` (or `false`) where the source returns "nothing". */
module Wrappers {
  datatype Option<+T> = None | Some(value: T)
}
