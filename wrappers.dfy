/** The optional value the model uses for a regular-expression search that
    may find nothing, and for a run that aborts. */
module Wrappers {
  datatype Option<+T> = None | Some(value: T)
}
