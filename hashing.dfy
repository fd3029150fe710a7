/**
 * An abstract model of the bcrypt `hashpw`/`checkpw` pair used for passwords.
 * The salt that `gensalt` draws at random is a parameter.  The derived key is
 * idealised: two different passwords never produce the same key.
 */
module Hashing {
  import opened Wrappers

  /** What the password column holds: a bcrypt digest, or text that is not one. */
  datatype Digest = Bcrypt(salt: nat, key: string) | Malformed(text: string)

  /** `checkpw`: None stands for the ValueError raised on a malformed stored hash. */
  function Check(password: string, stored: Digest): (r: Option<bool>)
    ensures r.None? <==> stored.Malformed?
  {
    match stored
    case Malformed(_) => None
    case Bcrypt(_, key) => Some(key == password)
  }

  /** `hashpw(password, salt)`: whatever the salt, the password checks against its own digest. */
  function Hash(password: string, salt: nat): (d: Digest)
    ensures d.Bcrypt? && d.salt == salt
    ensures Check(password, d) == Some(true)
  {
    Bcrypt(salt, password)
  }

  /** A digest accepts only the password it was made from. */
  lemma CheckRejectsOthers(password: string, other: string, salt: nat)
    requires other != password
    ensures Check(other, Hash(password, salt)) == Some(false)
  {
  }
}
