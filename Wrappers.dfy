/** The optional value used for "absent" results of the source's collaborators. */
module Wrappers {

  datatype Option<+T> = None | Some(value: T)
}
