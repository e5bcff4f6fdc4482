/**
 * The password hasher (`passlib`'s bcrypt context in app/auth.py) as a
 * stand-in: a digest records the salt drawn for it and a salted tag, and
 * `VerifyPassword` recomputes the tag. The salt is an input, since bcrypt
 * draws it at random. Cost factor and the real one-way function are not
 * modelled; only the two facts the clinic relies on are.
 */
module Passwords {

  datatype Digest = Digest(salt: nat, tag: seq<int>)

  /** The salted tag of a password. */
  function Mix(salt: nat, password: string): (t: seq<int>)
    ensures |t| == |password|
    ensures forall i :: 0 <= i < |t| ==> t[i] == password[i] as int + salt
  {
    seq(|password|, i requires 0 <= i < |password| => password[i] as int + salt)
  }

  /**
   * `get_password_hash`: a digest that verifies the password and records
   * the salt drawn for it (different salts give different digests, see
   * `SaltedDigestsDiffer`).
   */
  function PasswordHash(password: string, salt: nat): (d: Digest)
    ensures VerifyPassword(password, d)
    ensures d.salt == salt
  {
    Digest(salt, Mix(salt, password))
  }

  /** `verify_password`: recomputes the tag under the digest's own salt. */
  predicate VerifyPassword(plain: string, hashed: Digest) {
    Mix(hashed.salt, plain) == hashed.tag
  }

  /**
   * A digest verifies its own password, and no other, whatever the salt.
   * (bcrypt itself reads only the first 72 bytes of a password; this
   * stand-in reads all of it.)
   */
  lemma HashVerifiesExactly(password: string, attempt: string, salt: nat)
    ensures VerifyPassword(attempt, PasswordHash(password, salt)) <==> attempt == password
  {
    if VerifyPassword(attempt, PasswordHash(password, salt)) {
      var a, b := Mix(salt, attempt), Mix(salt, password);
      assert |attempt| == |password|;
      forall i | 0 <= i < |attempt| ensures attempt[i] == password[i] {
        assert a[i] == b[i];
      }
    }
  }

  /** Hashing one password twice with different salts gives different digests, both of which verify. */
  lemma SaltedDigestsDiffer(password: string, salt1: nat, salt2: nat)
    requires salt1 != salt2
    ensures PasswordHash(password, salt1) != PasswordHash(password, salt2)
    ensures VerifyPassword(password, PasswordHash(password, salt1))
    ensures VerifyPassword(password, PasswordHash(password, salt2))
  {
  }
}
