/** The optional value used wherever the source has "absent" (undefined, null, a failed match). */
module Wrappers {

  datatype Option<+T> = None | Some(value: T)
}
