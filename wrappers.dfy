/** The optional value used by the document (its selection anchor) and by key decoding. */
module Wrappers {

  datatype Option<+T> = None | Some(value: T)
}
