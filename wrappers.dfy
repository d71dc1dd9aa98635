/** The optional value used wherever the source returns `null`/`None` or a result may be absent. */
module Wrappers {

  datatype Option<+T> = None | Some(value: T)
}
