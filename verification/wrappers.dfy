/** Optional values: the `None`/`Optional[...]` of the pipeline's records. */
module Wrappers {

  datatype Option<+T> = None | Some(value: T)
}
