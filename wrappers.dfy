/** The optional value used wherever the chatbot returns None or a "not found" pair. */
module Wrappers {

  datatype Option<+T> = None | Some(value: T)
}
