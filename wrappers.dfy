/** The optional value the app uses where Python yields `None` or pandas yields NaN. */
module Wrappers {
  datatype Option<+T> = None | Some(value: T)
}
