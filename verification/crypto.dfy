/** bcrypt and JSON Web Tokens, kept uninterpreted: each is a record of
    function values, and every property of the model holds whatever those
    functions are. */
module Crypto {

  /** The payload the application signs into a token. */
  datatype Claims = Claims(userId: int, username: string)

  /** The three outcomes of `jwt.verify` the handlers tell apart: a good
      token with its payload, a `TokenExpiredError`, and every other error. */
  datatype Verdict = Verified(claims: Claims) | Expired | Invalid

  /** `bcrypt.hash(password, rounds)` and `bcrypt.compare(password, hash)`. */
  datatype Bcrypt = Bcrypt(hash: (string, nat) -> string, compare: (string, string) -> bool)

  /** `jwt.sign(claims, secret, { expiresIn: '24h' })` and
      `jwt.verify(token, secret)`, with the secret and the clock folded in. */
  datatype Jwt = Jwt(sign: Claims -> string, verify: string -> Verdict)
}
