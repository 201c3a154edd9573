/** The optional value used for match ids that have not been seen yet and for the pagination cursor. */
module Wrappers {

  datatype Option<+T> = None | Some(value: T)
}
