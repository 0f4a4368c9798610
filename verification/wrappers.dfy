/** The optional value the C# code expresses with a nullable reference (`User?`, `string?`). */
module Wrappers {

  datatype Option<+T> = None | Some(value: T)
}
