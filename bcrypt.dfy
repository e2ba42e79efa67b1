/**
 * The password hasher (the `bcryptjs` library). Its one-way function is not
 * modelled: a hash records the cost factor, the random salt (a parameter,
 * since randomness is not modelled) and the password it was made from, and
 * comparison is exact.
 */
module Bcrypt {

  /** The cost factor every call site passes to `bcrypt.hash`. */
  const SALT_ROUNDS: nat := 10

  datatype PasswordHash = PasswordHash(rounds: nat, salt: nat, source: string)

  /** `bcrypt.compare(password, hash)`. */
  predicate Compare(password: string, hash: PasswordHash)
  {
    hash.source == password
  }

  /** `bcrypt.hash(password, 10)`: the stored hash accepts the password it
      was made from and no other. */
  function Hash(password: string, salt: nat): (h: PasswordHash)
    ensures h.rounds == SALT_ROUNDS
    ensures Compare(password, h)
    ensures forall other :: Compare(other, h) ==> other == password
  {
    PasswordHash(SALT_ROUNDS, salt, password)
  }

  /** `bcrypt.compare` against a stored hash: it accepts a password exactly
      when the hash was made from that password, whatever the salt. */
  lemma CompareHashed(password: string, stored: string, salt: nat)
    ensures Compare(password, Hash(stored, salt)) <==> password == stored
  {
  }
}
