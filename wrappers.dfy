/** The optional value used wherever the pipeline has "absent" (Python's None). */
module Wrappers {
  datatype Option<+T> = None | Some(value: T)
}
