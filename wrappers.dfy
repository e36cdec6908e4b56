/** Optional values: a query parameter or header that may be missing, a store
    field that may be unset, a search that may find nothing. */
module Wrappers {

  datatype Option<+T> = None | Some(value: T)

  /** JavaScript's `x || 0` on an optional store counter: a missing value reads as 0. */
  function OrZero(o: Option<int>): (n: int)
    ensures o.None? ==> n == 0
    ensures o.Some? ==> n == o.value
  {
    if o.Some? then o.value else 0
  }
}
