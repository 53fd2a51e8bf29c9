/** The nullable references of the source: `None` stands for null. */
module Wrappers {
  datatype Option<+T> = None | Some(value: T)
}
