/** Optional values: a database row that `.first()` may not find, a nullable column. */
module Wrappers {

  datatype Option<T> = None | Some(value: T)

}
