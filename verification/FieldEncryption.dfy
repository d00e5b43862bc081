/** The field envelope (app/services/security/field_encryption.py) over an abstract authenticated cipher. */
module FieldEncryption {
  import opened Wrappers
  import opened Crypto

  // Sealing takes a fresh nonce; the sealed form is the envelope's JSON, as text.
  datatype Aead = Aead(seal: (Key, nat, string) -> string, unseal: (Key, string) -> Option<string>)

  /** What is used of the cipher: the right key opens what it sealed, and an envelope is no shorter than its content. */
  ghost predicate Lawful(a: Aead) {
    && (forall k: Key, n: nat, x: string :: a.unseal(k, a.seal(k, n, x)) == Some(x))
    && (forall k: Key, c: string :: a.unseal(k, c).Some? ==> |a.unseal(k, c).value| <= |c|)
  }

  /** Such a cipher exists, so assuming one is sound. */
  lemma ALawfulCipherExists()
    ensures exists a: Aead :: Lawful(a)
  {
    var a := Aead((k, n, x) => x, (k, c) => Some(c));
    assert Lawful(a);
  }

  const PREFIX := "enc::"

  // A reader gets a nullable text, or an exception.
  datatype Reading = Readable(text: Option<string>) | Unreadable

  predicate IsEncrypted(v: Option<string>) { v.Some? && PREFIX <= v.value }

  function EncryptText(a: Aead, v: Option<string>, key: Key, nonce: nat): Option<string> {
    if v.None? then None
    else if v.value == "" then Some("")
    else if IsEncrypted(v) then v
    else Some(PREFIX + a.seal(key, nonce, v.value))
  }

  function DecryptText(a: Aead, v: Option<string>, key: Key): Reading {
    if v.None? then Readable(None)
    else if v.value == "" then Readable(Some(""))
    else if !IsEncrypted(v) then Readable(v)
    else
      match a.unseal(key, v.value[|PREFIX|..])
      case None => Unreadable
      case Some(x) => Readable(Some(x))
  }

  /**
   Encrypting and decrypting under one key gives a value back exactly when the value does not
   itself start with the envelope prefix; such a value is passed through by encryption but opened,
   or rejected, by decryption.
   */
  lemma RoundTripIff(a: Aead, v: Option<string>, key: Key, nonce: nat)
    requires Lawful(a)
    ensures DecryptText(a, EncryptText(a, v, key, nonce), key) == Readable(v) <==> v.None? || !("enc::" <= v.value)
  {
  }

  /** Encryption settles at once: a second pass, under any key and nonce, changes nothing. */
  lemma EncryptIsIdempotent(a: Aead, v: Option<string>, key: Key, nonce: nat, key': Key, nonce': nat)
    ensures EncryptText(a, EncryptText(a, v, key, nonce), key', nonce') == EncryptText(a, v, key, nonce)
    ensures v.Some? && v.value != "" ==> IsEncrypted(EncryptText(a, v, key, nonce))
  {
  }
}
