/** An optional value: an attribute or style property that may be absent. */
module Wrappers {

  datatype Option<+T> = None | Some(value: T)
}
