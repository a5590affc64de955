/** Hashes, keys and commitments as opaque names: only their equality matters here. */
module Crypto {
  datatype Hash = Hash(id: nat)
  datatype Key = Key(id: nat)
  datatype KeyImage = KeyImage(id: nat)

  /** A commitment to an amount with an identity mask, or one that came with the transaction. */
  datatype Commitment = ZeroCommit(amount: nat) | Mask(id: nat)
}
