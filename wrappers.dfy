/** A value that may be absent: a missing storage entry or a failed lookup. */
module Wrappers {

  datatype Option<+T> = None | Some(value: T)

}
