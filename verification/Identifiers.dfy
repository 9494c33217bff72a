/** Identifiers, plaintext tokens and their hashes (internal/secure). */
module Identifiers {
  /** Identifiers and plaintext tokens are drawn from one counter, so they are fresh and
      distinct; 0 stands for the empty string. */
  type Id = nat

  /** Token hashing, taken to be collision free. */
  datatype Hash = Hash(token: Id)
}
