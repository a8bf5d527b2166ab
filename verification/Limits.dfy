// Bounds on one forward call (src/proxy.rs).
module Limits {

  /** Attempts at most, redirects and retries included. */
  const MAX_HOPS: nat := 4

  /** The client's timeout for one attempt. */
  const HOP_TIMEOUT_MS: nat := 5 * 1000
}
