/** The optional-value datatype used for lookups and decodings that can fail. */
module Wrappers {

  datatype Option<+T> = None | Some(value: T)
}
