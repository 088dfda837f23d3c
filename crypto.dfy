/**
 * The password hasher (bcrypt through passlib's CryptContext), kept symbolic.
 *
 * A digest records the salt drawn for the call that produced it and the password
 * it was computed from; nothing in the model looks inside a digest except Verify.
 * The salt is randomness, so it is a parameter of Hash. Collisions and the cost
 * factor are not modelled.
 */
module Crypto {

  datatype Digest = Bcrypt(salt: string, preimage: string)

  /** pwd_context.hash(password), with the salt bcrypt would draw. */
  function Hash(password: string, salt: string): (d: Digest)
    ensures Verify(password, d)
    ensures forall other :: Verify(other, d) ==> other == password
  {
    Bcrypt(salt, password)
  }

  /** pwd_context.verify(password, digest): false on any mismatch, never an error. */
  function Verify(password: string, d: Digest): (ok: bool)
    ensures ok <==> d == Bcrypt(d.salt, password)
  {
    d.preimage == password
  }

  /** Two hashes of the same password under different salts differ, yet both verify. */
  lemma SaltedHashesDiffer(password: string, salt1: string, salt2: string)
    requires salt1 != salt2
    ensures Hash(password, salt1) != Hash(password, salt2)
    ensures Verify(password, Hash(password, salt1)) && Verify(password, Hash(password, salt2))
  {
  }
}
