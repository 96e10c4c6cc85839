/** The optional-value datatype used across the model. */
module Wrappers {

  /** `None` stands for a rejected or absent value, `Some` carries it. */
  datatype Option<+T> = None | Some(value: T)
}
