/** The nullable-pointer results of the query layer, as a value. */
module Wrappers {

  /** `None` stands for the source's `nullptr`, `Some(v)` for a pointer to `v`. */
  datatype Option<+T> = None | Some(value: T)
}
