/** The optional value the animation uses for "no target queued". */
module Wrappers {

  datatype Option<T> = None | Some(value: T)
}
