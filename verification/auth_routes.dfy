/** The backend's authentication router: `POST /register` and
    `POST /login` run their validation chains, then
    `handleValidationErrors`, then the controller; `GET /profile` runs
    `authenticateToken`, then the controller. */
module AuthRoutes {
  import opened Wrappers
  import opened Text
  import opened Http
  import opened Crypto
  import opened Validation
  import opened AuthMiddleware
  import opened Users
  import opened AuthController

  /** The library predicates and sanitizers the chains call. */
  datatype Library = Library(isEmail: string -> bool, normalizeEmail: string -> string)

  /** A username that passes its chain was present in the body. */
  lemma UsernameOkPresent(u: Option<string>)
    ensures RegisterUsernameOk(u) ==> u.Some?
  {
    if u.None? {
      TrimWindow([]);
    }
  }

  /** `POST /register`. */
  function RegisterRoute(db: UserTable, body: RegisterBody, lib: Library, bcrypt: Bcrypt, jwt: Jwt, now: int)
    : (r: Outcome)
    requires Valid(db)
    ensures Valid(r.db)
    ensures !(RegisterUsernameOk(body.username) && RegisterPasswordOk(body.password)
              && RegisterEmailOk(body.email, lib.isEmail)) ==>
      r.db == db && r.response.status == 400 && r.response.body.JObj?
      && Lookup(r.response.body.members, "error") == Some(JStr(InvalidInputError))
    ensures RegisterUsernameOk(body.username) && RegisterPasswordOk(body.password)
            && RegisterEmailOk(body.email, lib.isEmail) ==>
      body.username.Some? && body.password.Some?
      && r == Register(db, Trim(body.username.value), body.password.value,
                       ValidateRegister(body, lib.isEmail, lib.normalizeEmail).body.email, bcrypt, jwt, now)
  {
    var checked := ValidateRegister(body, lib.isEmail, lib.normalizeEmail);
    NoFailedFields(checked.errors);
    UsernameOkPresent(body.username);
    match HandleValidationErrors(checked.errors)
    case Halt(response) => Outcome(db, response)
    case Next(_) =>
      Register(db, checked.body.username.value, checked.body.password.value, checked.body.email,
               bcrypt, jwt, now)
  }

  /** `POST /login`. */
  function LoginRoute(db: UserTable, body: LoginBody, bcrypt: Bcrypt, jwt: Jwt, now: int): (r: Outcome)
    requires Valid(db)
    ensures Valid(r.db)
    ensures Trim(Seen(body.username)) == [] || Seen(body.password) == [] ==>
      r.db == db && r.response.status == 400 && r.response.body.JObj?
      && Lookup(r.response.body.members, "error") == Some(JStr(InvalidInputError))
    ensures Trim(Seen(body.username)) != [] && Seen(body.password) != [] ==>
      body.username.Some? && body.password.Some?
      && r == Login(db, Trim(body.username.value), body.password.value, bcrypt, jwt, now)
  {
    var checked := ValidateLogin(body);
    NoFailedFields(checked.errors);
    match HandleValidationErrors(checked.errors)
    case Halt(response) => Outcome(db, response)
    case Next(_) =>
      Login(db, checked.body.username.value, checked.body.password.value, bcrypt, jwt, now)
  }

  /** `GET /profile`: a 200 answer needs a token that verifies and names
      an existing user. */
  function ProfileRoute(db: UserTable, header: Option<string>, jwt: Jwt): (r: Response)
    requires Valid(db)
    ensures r.status == 200 <==>
      ExtractToken(header).Some? && jwt.verify(ExtractToken(header).value).Verified?
      && ById(db, jwt.verify(ExtractToken(header).value).claims.userId).Some?
    ensures AuthenticateToken(header, jwt).Halt? ==> r == AuthenticateToken(header, jwt).response
  {
    match AuthenticateToken(header, jwt)
    case Halt(response) => response
    case Next(claims) => GetProfile(db, claims)
  }

  /** A user who has just registered can read their profile with the
      token the registration returned, whatever scheme word precedes it. */
  lemma ProfileAfterRegister(db: UserTable, body: RegisterBody, lib: Library, bcrypt: Bcrypt, jwt: Jwt,
                             now: int, scheme: string)
    requires Valid(db)
    requires RegisterRoute(db, body, lib, bcrypt, jwt, now).response.status == 201
    requires ' ' !in scheme
    requires var token := jwt.sign(Claims(|db.rows| + 1, Trim(body.username.value)));
      token != [] && ' ' !in token && jwt.verify(token) == Verified(Claims(|db.rows| + 1, Trim(body.username.value)))
    ensures var db1 := RegisterRoute(db, body, lib, bcrypt, jwt, now).db;
      var token := jwt.sign(Claims(|db.rows| + 1, Trim(body.username.value)));
      ProfileRoute(db1, Some(scheme + (" " + (token + ""))), jwt).status == 200
  {
    var token := jwt.sign(Claims(|db.rows| + 1, Trim(body.username.value)));
    ExtractTokenAnyScheme(scheme, token, "");
  }
}
