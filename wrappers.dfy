/** Optional values: Python's `None` and SQL's NULL both become `None`. */
module Wrappers {

  datatype Option<+T> = None | Some(value: T)

  /** SQL `coalesce(v, d)` and Python's `v if v is not None else d`. */
  function GetOr<T>(o: Option<T>, default: T): (r: T)
    ensures o.Some? ==> r == o.value
    ensures o.None? ==> r == default
  {
    match o
    case Some(v) => v
    case None => default
  }
}
