/** Optional values: a ledger entry's source candidate is absent for first preferences. */
module Wrappers {
  datatype Option<+T> = None | Some(value: T)
}
