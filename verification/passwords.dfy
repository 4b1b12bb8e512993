/** Passphrases of protected links: what is stored, and what opens the link. */
module Passwords {
  import opened Models

  /** The key derivation: a key from a passphrase and a salt, or a failure. */
  type Kdf = (string, Bytes) -> Option<Bytes>

  /** The (hash, salt) pair to store; `salt` is what the random source gave. */
  function HashPassword(password: string, salt: Option<Bytes>, kdf: Kdf): Option<(Bytes, Bytes)> {
    if salt.None? then None
    else if kdf(password, salt.value).None? then None
    else Some((kdf(password, salt.value).value, salt.value))
  }

  function VerifyPassword(password: string, hash: Bytes, salt: Bytes, kdf: Kdf): bool {
    if hash == [] || salt == [] then false
    else kdf(password, salt).Some? && kdf(password, salt).value == hash
  }

  /** Derived keys are never empty. */
  ghost predicate Derives(kdf: Kdf) {
    forall p, s :: kdf(p, s).Some? ==> kdf(p, s).value != []
  }

  /** What was stored for one passphrase opens to exactly those that derive the same key: itself
      always, and others as often as the derivation collides. */
  lemma OpensToSameKey(password: string, other: string, salt: Bytes, kdf: Kdf)
    requires Derives(kdf) && salt != [] && HashPassword(password, Some(salt), kdf).Some?
    ensures var stored := HashPassword(password, Some(salt), kdf).value;
      && VerifyPassword(password, stored.0, stored.1, kdf)
      && (VerifyPassword(other, stored.0, stored.1, kdf) <==> kdf(other, salt) == kdf(password, salt))
  {
  }
}
