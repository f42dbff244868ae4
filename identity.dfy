/**
 * The identity capabilities the controllers call but this model does not
 * define: bcrypt's `hash`/`compare` and jsonwebtoken's `sign`/`verify`
 * (server/src/services/tokenService.js). They are passed in as functions
 * and no property of them is taken for granted.
 */
module Identity {

  /** The payload the server signs: `{id, email, username, level}`. */
  datatype Claims = Claims(id: int, email: string, username: string, level: int)

  /** What `jwt.verify` returns: the signed payload plus the registered claims it adds. */
  datatype Decoded = Decoded(id: int, email: string, username: string, level: int, iat: int, exp: int)

  /** `verifyToken` either returns the decoded payload or throws an error with a message. */
  datatype Verified = Verified(payload: Decoded) | Failed(message: string)

  /**
   * The password hash and the session signer. `hash` stands for
   * `bcrypt.hash(password, 10)`, `compare(plain, hash)` for `bcrypt.compare`,
   * `sign` for `signToken`.
   */
  datatype Crypto = Crypto(hash: string -> string, compare: (string, string) -> bool, sign: Claims -> string)

  /** The `expires_time` the register endpoint reports: seven days, in seconds. */
  const SessionSeconds: int := 7 * 24 * 60 * 60
}
