/** The optional-value wrapper used for the fields a feed post or a stored state may lack. */
module Wrappers {
  datatype Option<+T> = None | Some(value: T)
}
