/** The optional value used for the nullable columns of the pipeline
    (a missing peak position, a missing chart date). */
module Wrappers {
  datatype Option<+T> = None | Some(value: T)
}
