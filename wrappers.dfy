/** Small shared wrapper types. */
module Wrappers {

  /** `None` stands for a missing value (pandas' NaN in a derived column). */
  datatype Option<+T> = None | Some(value: T)
}
