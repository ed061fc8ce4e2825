/** The optional-value datatype used for JavaScript's `null` / `undefined`. */
module Wrappers {

  /** `None` stands for JavaScript's `null` or `undefined`; `Some(v)` for a present value. */
  datatype Option<+T> = None | Some(value: T)
}
