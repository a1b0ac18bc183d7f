/** The optional values of the counter: java.util.Optional results and nullable references. */
module Wrappers {

  /** `None` stands for Java's `null` / `Optional.empty()`. */
  datatype Option<+T> = None | Some(value: T)
}
