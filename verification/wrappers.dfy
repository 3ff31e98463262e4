/** The absent-or-present value used for optional record properties and
    for lookups that may find nothing. */
module Wrappers {

  /** `None` stands for `undefined`; `Some(v)` for a present value. */
  datatype Option<+T> = None | Some(value: T)
}
