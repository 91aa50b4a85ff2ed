/** Absent-or-present values: Python's `None` and the load failures the dashboard swallows. */
module Wrappers {
  datatype Option<+T> = None | Some(value: T)
}
