/**
  Optional values and thrown errors: a JavaScript value that may be
  `undefined`, and a step that either yields a value or throws an `Error`
  carrying a message.
*/
module Wrappers {

  datatype Option<+T> = None | Some(value: T)

  datatype Outcome<+T> = Ok(value: T) | Thrown(message: string)
}
