/** The optional-value datatype used for Ruby's `nil`. */
module Wrappers {

  /** `None` stands for Ruby's `nil`. */
  datatype Option<+T> = None | Some(value: T)
}
