/** The optional value that Python spells `Optional[str]` / `None`. */
module Wrappers {
  datatype Option<+T> = None | Some(value: T)
}
