/** Values that may be absent: nullable columns, optional request fields, lookups that find no row. */
module Wrappers {
  datatype Option<+T> = None | Some(value: T)
}
