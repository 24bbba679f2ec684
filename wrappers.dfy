/** The optional value used wherever the service may see "nothing here" or a raised exception. */
module Wrappers {

  datatype Option<+T> = None | Some(value: T)
}
