/** errors.h: the answers of the proxy's functions that callers tell apart. */
module Errors {
  const PROXY_MAX_EVENTS: int := -7
  const PROXY_WOULD_BLOCK: int := -3
  const PROXY_DISCONNECT: int := -2
  const PROXY_ERR: int := -1
  const PROXY_SUCCESS: int := 0
}
