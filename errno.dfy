/** Status codes shared by the preferences store and the system storage layer.
    The four limit/emptiness codes are the ones the storage interface reports
    to its `fail` handlers; E_OK and E_ERROR only need to be distinct from
    them and from each other. */
module PreferencesErrno {

  /** The operation succeeded. */
  const E_OK: int := 0

  /** Generic failure; the value an operation context holds before it runs. */
  const E_ERROR: int := -1001

  /** The key is the empty string (reported by the store's write and delete). */
  const E_KEY_EMPTY: int := -1006

  /** The key is longer than the storage layer accepts. */
  const E_KEY_EXCEED_LENGTH_LIMIT: int := -1016

  /** The value to store is longer than the storage layer accepts. */
  const E_VALUE_EXCEED_LENGTH_LIMIT: int := -1017

  /** The default value of a read is longer than the storage layer accepts. */
  const E_DEFAULT_EXCEED_LENGTH_LIMIT: int := -1018

  /** The four codes the storage layer has a fixed message for. */
  predicate IsLimitCode(code: int)
  {
    code == E_KEY_EMPTY || code == E_KEY_EXCEED_LENGTH_LIMIT ||
    code == E_VALUE_EXCEED_LENGTH_LIMIT || code == E_DEFAULT_EXCEED_LENGTH_LIMIT
  }
}
