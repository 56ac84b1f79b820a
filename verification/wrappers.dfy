/** Optional values: the registry's "empty result" (an empty dict, a missing key,
    a failed request) is `None`. */
module Wrappers {

  datatype Option<+T> = None | Some(value: T)
}
