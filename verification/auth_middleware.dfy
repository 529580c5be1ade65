/** Bearer-token authentication: the backend's `authenticateToken` and
    `optionalAuth`, and the shorter `authenticateToken` both stand-alone
    servers carry. The token is the second space-separated word of the
    `Authorization` header; the first word is never looked at. */
module AuthMiddleware {
  import opened Wrappers
  import opened Text
  import opened Http
  import opened Crypto

  const TokenRequiredError := "Token de acceso requerido"
  const TokenRequiredMessage := "Debes incluir el token en el header Authorization: Bearer <token>"
  const TokenExpiredError := "Token expirado"
  const TokenExpiredMessage := "Tu sesión ha expirado, inicia sesión nuevamente"
  const TokenInvalidError := "Token inválido"
  const TokenInvalidMessage := "El token proporcionado no es válido"

  /** `authHeader && authHeader.split(' ')[1]`, with JavaScript truthiness:
      an absent or empty header, a header without a space and an empty
      second word all give no token. */
  function ExtractToken(header: Option<string>): (r: Option<string>)
    ensures r.Some? ==> r.value != [] && ' ' !in r.value
    ensures header.Some? && ' ' !in header.value ==> r.None?
  {
    match header
    case None => None
    case Some(h) =>
      var parts := Split(h, ' ');
      SplitPieces(h, ' ');
      if h != [] && |parts| >= 2 && parts[1] != [] then Some(parts[1]) else None
  }

  /** Any first word followed by a space and a non-empty word yields that
      word: `Bearer` is not required. */
  lemma ExtractTokenAnyScheme(scheme: string, token: string, rest: string)
    requires ' ' !in scheme && ' ' !in token && token != []
    requires rest == [] || rest[0] == ' '
    ensures ExtractToken(Some(scheme + (" " + (token + rest)))) == Some(token)
  {
    var tail := " " + (token + rest);
    assert tail[1..] == token + rest;
    assert Split(scheme + tail, ' ')[1..] == Split(token + rest, ' ') by {
      SplitFirst(scheme, tail, ' ');
    }
    assert Split(token + rest, ' ')[0] == token by {
      SplitFirst(token, rest, ' ');
    }
  }

  /** `authenticateToken` of the backend: 401 without a token, 401 with its
      own text for an expired token, 403 for any other verification error,
      otherwise the verified claims go on as `req.user`. */
  function AuthenticateToken(header: Option<string>, jwt: Jwt): (r: Step<Claims>)
    ensures r.Next? <==> ExtractToken(header).Some? && jwt.verify(ExtractToken(header).value).Verified?
    ensures r.Next? ==> r.value == jwt.verify(ExtractToken(header).value).claims
    ensures r.Halt? ==> r.response.status == 401 || r.response.status == 403
    ensures r.Halt? && r.response.status == 403 <==>
      ExtractToken(header).Some? && jwt.verify(ExtractToken(header).value).Invalid?
    ensures ExtractToken(header).None? ==>
      r == Halt(Response(401, ErrorMessageBody(TokenRequiredError, TokenRequiredMessage)))
  {
    match ExtractToken(header)
    case None => Halt(Response(401, ErrorMessageBody(TokenRequiredError, TokenRequiredMessage)))
    case Some(token) =>
      match jwt.verify(token)
      case Verified(c) => Next(c)
      case Expired => Halt(Response(401, ErrorMessageBody(TokenExpiredError, TokenExpiredMessage)))
      case Invalid => Halt(Response(403, ErrorMessageBody(TokenInvalidError, TokenInvalidMessage)))
  }

  /** `optionalAuth`: never ends the request; attaches the claims of a token
      that verifies and nothing otherwise. */
  function OptionalAuth(header: Option<string>, jwt: Jwt): (r: Option<Claims>)
    ensures r.Some? ==> ExtractToken(header).Some? && jwt.verify(ExtractToken(header).value) == Verified(r.value)
  {
    match ExtractToken(header)
    case None => None
    case Some(token) =>
      match jwt.verify(token)
      case Verified(c) => Some(c)
      case _ => None
  }

  /** The optional variant attaches a user exactly when the strict one would
      let the request through, and the same user. */
  lemma OptionalAuthAgrees(header: Option<string>, jwt: Jwt)
    ensures OptionalAuth(header, jwt).Some? <==> AuthenticateToken(header, jwt).Next?
    ensures OptionalAuth(header, jwt).Some? ==>
      OptionalAuth(header, jwt).value == AuthenticateToken(header, jwt).value
  {
  }

  /** `authenticateToken` of the stand-alone servers: 401 `{ error }`
      without a token, 403 `{ error }` for every verification error,
      expiry included. */
  function ServerAuthenticateToken(header: Option<string>, jwt: Jwt): (r: Step<Claims>)
    ensures r.Halt? ==> r.response.body.JObj? && |r.response.body.members| == 1
    ensures r.Halt? ==> (r.response.status == 401 <==> ExtractToken(header).None?)
  {
    match ExtractToken(header)
    case None => Halt(Response(401, ErrorBody(TokenRequiredError)))
    case Some(token) =>
      match jwt.verify(token)
      case Verified(c) => Next(c)
      case _ => Halt(Response(403, ErrorBody(TokenInvalidError)))
  }

  /** The two middlewares let the same requests through with the same user
      and refuse a missing token alike; they part only on an expired token,
      which the backend answers with 401 and the servers with 403. */
  lemma ServerAuthenticateDiffersOnExpiry(header: Option<string>, jwt: Jwt)
    ensures ServerAuthenticateToken(header, jwt).Next? <==> AuthenticateToken(header, jwt).Next?
    ensures ServerAuthenticateToken(header, jwt).Next? ==>
      ServerAuthenticateToken(header, jwt).value == AuthenticateToken(header, jwt).value
    ensures ServerAuthenticateToken(header, jwt).Halt? ==>
      (ServerAuthenticateToken(header, jwt).response.status == AuthenticateToken(header, jwt).response.status
       <==> !(ExtractToken(header).Some? && jwt.verify(ExtractToken(header).value).Expired?))
  {
  }
}
