/** The optional value used for every parse that the Java code may abandon
    with a NumberFormatException: None stands for the exception. */
module Wrappers {

  datatype Option<+T> = None | Some(value: T)

}
