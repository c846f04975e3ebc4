/** An optional value: None stands for the cases where the Java code throws or returns null. */
module Wrappers {
  datatype Option<T> = None | Some(value: T)
}
