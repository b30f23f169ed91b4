/** An optional value: a property that a JavaScript object may or may not own. */
module Wrappers {
  datatype Option<+T> = None | Some(value: T)
}
