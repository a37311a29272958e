/** The optional value used wherever the service may find nothing (a C# null). */
module Wrappers {

  datatype Option<+T> = None | Some(value: T)
}
