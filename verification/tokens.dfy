/** The numbers of fencing tokens, whose text StorageUint counts. */
module Tokens {
  import opened Bytes
  import opened Wrappers

  const FirstToken: nat := 1

  /** The token behind another one; the last one has none. */
  function TokenAfter(token: nat): Option<nat> {
    if token >= TwoTo64 - 1 then None else Some(token + 1)
  }
}
