/** The absent-or-present value the source expresses with a null reference. */
module Wrappers {

  datatype Option<+T> = None | Some(value: T)

}
