/** The optional value the game's queries return (Rust's `Option`). */
module Wrappers {
  datatype Option<+T> = None | Some(value: T)
}
