/** The optional-value type shared by the phone scanner and the directory parser. */
module Wrappers {

  /** `None` stands for Python's `None`: an absent field or a failed match. */
  datatype Option<+T> = None | Some(value: T)
}
