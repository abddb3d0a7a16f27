/** Optional values, standing in for the NULL pointers of the C code, and the success flag of Error_t. */
module Wrappers {

  datatype Option<+T> = None | Some(value: T)

  /** Error_t: TDICE_SUCCESS or TDICE_FAILURE. */
  datatype Outcome = Success | Failure
}
