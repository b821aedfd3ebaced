/**
 Field elements.  Hashing is symbolic: a hash is a term that remembers what was hashed, so
 two hashes are equal exactly when their pre-images are.  `Reduced` stands for the remainder
 modulo the address bound that turns a hash into a contract address.
 */
module Felts {

  datatype Felt = Value(n: nat) | HashOf(elements: seq<Felt>) | Reduced(felt: Felt)

  /** The Stark field's prime, 2^251 + 17 * 2^192 + 1. */
  const PRIME: nat := 0x800000000000011000000000000000000000000000000000000000000000001

  const ZERO := Value(0)
}
