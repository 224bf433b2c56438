/** Optional values, for decoders that can reject their input. */
module Wrappers {

  datatype Option<+T> = None | Some(value: T)
}
