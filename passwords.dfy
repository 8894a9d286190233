/**
 * `password_hash` / `password_verify`. The salt that `password_hash` draws at random is a
 * parameter here. The digest is a stand-in that is not one-way; only the relation between
 * hashing and verifying is modelled.
 */
module Passwords {

  /** What the users table stores in its password column: the salt and the digest. */
  datatype Credential = Credential(salt: nat, digest: string)

  /** The stand-in digest of a password under a salt. */
  function Digest(salt: nat, password: string): string
  {
    password
  }

  /** `password_verify(password, credential)`. */
  predicate PasswordVerify(password: string, credential: Credential)
  {
    Digest(credential.salt, password) == credential.digest
  }

  /** `password_hash(password, PASSWORD_DEFAULT)` with the salt it happens to draw. */
  function HashPassword(password: string, salt: nat): (c: Credential)
    ensures c.salt == salt
    ensures forall q :: PasswordVerify(q, c) <==> q == password
  {
    Credential(salt, Digest(salt, password))
  }
}
