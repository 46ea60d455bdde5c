/** Optional values, standing for Python's `None` where the source uses it as "absent". */
module Wrappers {

  datatype Option<+T> = None | Some(value: T)
}
