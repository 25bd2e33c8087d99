/**
 * The two cryptographic collaborators, kept abstract. Token signing and
 * verification (jsonwebtoken with the server secret and the configured
 * lifetime) and password hashing (bcrypt with a random salt) are given as
 * function values; the only facts the model relies on about them are the
 * predicates below, which every property that needs them takes as a
 * precondition.
 */
module Crypto {
  import opened Wrappers

  /**
   * The payload fields the authentication layer reads: `sub` and `username`.
   * A field is `None` when a verified payload does not carry it.
   */
  datatype Claims = Claims(sub: Option<string>, username: Option<string>)

  /**
   * `sign` is `jwt.sign(claims, secret, {expiresIn})`; `verify` is
   * `jwt.verify(token, secret)`, `None` where it throws (bad signature,
   * malformed token, expired token).
   */
  datatype TokenService = TokenService(sign: Claims -> string, verify: string -> Option<Claims>)

  /**
   * What the model assumes of the token service: a token it has just signed
   * is a non-empty string and verifies to exactly the claims signed.
   */
  ghost predicate SignsVerifiably(t: TokenService) {
    forall c: Claims :: t.sign(c) != "" && t.verify(t.sign(c)) == Some(c)
  }

  /**
   * `hash(password, salt)` is `bcrypt.hash`, with the random salt made an
   * input; `compare(password, hash)` is `bcrypt.compare`.
   */
  datatype PasswordHasher = PasswordHasher(hash: (string, string) -> string,
                                           compare: (string, string) -> bool)

  /** What the model assumes of the hasher: a password matches its own hash, whatever the salt. */
  ghost predicate ComparesOwnHash(h: PasswordHasher) {
    forall password: string, salt: string :: h.compare(password, h.hash(password, salt))
  }
}
