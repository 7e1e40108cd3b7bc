/** Optional values, standing for the rows a query may not find and the
    exceptions (`IndexError`, `ValueError`) the Python code raises. */
module Wrappers {

  datatype Option<+T> = None | Some(value: T)
}
