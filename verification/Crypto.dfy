/**
 Password hashing and key wrapping, with the primitives taken as ideal: a digest records
 exactly what was hashed, and a wrapped key opens under the key that sealed it and under no other.
 */
module Crypto {
  import opened Wrappers

  type Salt = nat

  datatype Kdf = Argon2id | Pbkdf2

  datatype Digest = Digest(kdf: Kdf, secret: string, salt: Salt)

  // A field key is either random bytes or, for accounts older than key wrapping, derived from the password digest.
  datatype Key = Random(bytes: nat) | PasswordDerived(verifier: Digest)

  // The key-encryption key is a hash of the digest with a fixed suffix.
  datatype Kek = Kek(digest: Digest)

  datatype Wrapped = Wrapped(kek: Kek, dek: Key)

  /** Hash under a stored KDF label: argon2id falls back to PBKDF2 when the package fails. */
  function HashForKdf(secret: string, salt: Salt, kdf: Kdf, argonAvailable: bool): Digest {
    if kdf.Argon2id? && argonAvailable then Digest(Argon2id, secret, salt) else Digest(Pbkdf2, secret, salt)
  }

  /** Hash a new secret with the best KDF available, returning its label. */
  function HashSecret(secret: string, salt: Salt, argonAvailable: bool): (Kdf, Digest) {
    if argonAvailable then (Argon2id, Digest(Argon2id, secret, salt)) else (Pbkdf2, Digest(Pbkdf2, secret, salt))
  }

  function DeriveKek(secret: string, salt: Salt, kdf: Kdf, argonAvailable: bool): Kek {
    Kek(HashForKdf(secret, salt, kdf, argonAvailable))
  }

  function WrapDek(dek: Key, kek: Kek): Wrapped { Wrapped(kek, dek) }

  function UnwrapDek(w: Wrapped, kek: Kek): Option<Key> {
    if w.kek == kek then Some(w.dek) else None
  }

  function LegacyFieldKey(secret: string, salt: Salt, kdf: Kdf, argonAvailable: bool): Key {
    PasswordDerived(HashForKdf(secret, salt, kdf, argonAvailable))
  }

  /** Try each KDF label in turn against a hash stored without a label; returns the label that matched. */
  method VerifyHashAnyKdf(secret: string, salt: Salt, expected: Digest, argonAvailable: bool)
    returns (ok: bool, kdf: Kdf)
    ensures (ok, kdf) == AnyKdf(secret, salt, expected, argonAvailable)
    ensures ok <==> expected.secret == secret && expected.salt == salt && (expected.kdf.Pbkdf2? || argonAvailable)
    ensures ok ==> HashForKdf(secret, salt, kdf, argonAvailable) == expected
  {
    var labels := [Argon2id, Pbkdf2];
    for i := 0 to |labels|
      invariant forall j :: 0 <= j < i ==> HashForKdf(secret, salt, labels[j], argonAvailable) != expected
    {
      if HashForKdf(secret, salt, labels[i], argonAvailable) == expected {
        assert i == 1 ==> HashForKdf(secret, salt, labels[0], argonAvailable) != expected;
        return true, labels[i];
      }
    }
    assert HashForKdf(secret, salt, labels[0], argonAvailable) != expected;
    assert HashForKdf(secret, salt, labels[1], argonAvailable) != expected;
    return false, Pbkdf2;
  }

  function AnyKdf(secret: string, salt: Salt, expected: Digest, argonAvailable: bool): (bool, Kdf) {
    if HashForKdf(secret, salt, Argon2id, argonAvailable) == expected then (true, Argon2id)
    else if HashForKdf(secret, salt, Pbkdf2, argonAvailable) == expected then (true, Pbkdf2)
    else (false, Pbkdf2)
  }
}
