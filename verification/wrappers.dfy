/** The optional value used for parsers and decoders that can fail. */
module Wrappers {

  datatype Option<+T> = None | Some(value: T)
}
