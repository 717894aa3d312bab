/** Byte strings and hash functions. */
module ByteStrings {
  type Byte = x: int | 0 <= x < 256

  type Bytes = seq<Byte>

  // Length of a SHA-256 digest.
  const DIGEST := 32

  /** A hash function is arbitrary, but its digests all have one length. */
  type Hash = Bytes -> Bytes

  ghost predicate FixedLength(H: Hash) {
    forall x :: |H(x)| == DIGEST
  }

  /** Two different strings with one digest. */
  predicate Collision(H: Hash, x: Bytes, y: Bytes) {
    x != y && H(x) == H(y)
  }
}
