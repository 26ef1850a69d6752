/** The optional value used wherever the handlers use None or a NaN marker. */
module Wrappers {

  datatype Option<+T> = None | Some(value: T)

}
