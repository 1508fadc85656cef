/** The optional-value datatype used across the model: a C# `null` string or path becomes `None`. */
module Wrappers {

  datatype Option<+T> = None | Some(value: T)
}
