/** Datatypes shared by every component. */
module Prelude {
  datatype Option<+T> = None | Some(value: T)
}
