/** The Option datatype the model uses for Java's nullable references and for
    driver calls that may throw. */
module Wrappers {

  datatype Option<+T> = None | Some(value: T)
}
