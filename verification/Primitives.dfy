/** Addresses, and maps read the way Solidity reads a mapping. */
module Primitives {
  type Address = nat

  const ZERO_ADDRESS: Address := 0

  /** A mapping to uint256 holds 0 wherever nothing was stored. */
  function Lookup<K>(m: map<K, nat>, k: K): nat {
    if k in m then m[k] else 0
  }
}
