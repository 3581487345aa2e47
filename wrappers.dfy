/** Small helper datatypes shared by the modules of this model. */
module Wrappers {

  /** A value that may be absent. In the executor model a Python value is an
      `Option`: `None` is Python's `None`, which a user function may return
      and which the wrapper also records for a task that raised. */
  datatype Option<+T> = None | Some(value: T)
}
