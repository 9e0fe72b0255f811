/** A minimal optional-value datatype, used for the decoder's "no block open yet" state. */
module Wrappers {

  datatype Option<+T> = None | Some(value: T)

}
