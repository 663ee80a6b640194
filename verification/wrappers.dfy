/** The optional-value datatype shared by the parsers: a line that does not
    decode into an event, or a block that does not yield a stream, is `None`. */
module Wrappers {

  datatype Option<+T> = None | Some(value: T)
}
