/** Option, used wherever the source returns `T | null` or a `find` may miss. */
module Wrappers {

  datatype Option<+T> = None | Some(value: T)
}
