/** Locks that a transaction or a request holds until it ends. */
module Locks {
  /** What is still locked once `holder` has ended. */
  function Released<K>(locks: map<K, nat>, holder: nat): map<K, nat> {
    map k | k in locks && locks[k] != holder :: locks[k]
  }
}
