/** The one wrapper datatype the model needs: an optional value. */
module Wrappers {

  /** `None` stands for a missing value (`undefined` in the application). */
  datatype Option<+T> = None | Some(value: T)
}
