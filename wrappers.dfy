/** Optional values: a `find` that matches nothing, a track that is absent,
    a navigation that is not requested. */
module Wrappers {

  datatype Option<+T> = None | Some(value: T)
}
