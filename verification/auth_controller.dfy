/** The backend's `AuthController`: `register`, `login` and `getProfile`.
    Each handler takes the user table and returns it, possibly changed,
    together with the response. The handlers run after validation, so the
    request fields they read are present strings. */
module AuthController {
  import opened Wrappers
  import opened Http
  import opened Crypto
  import opened Users

  const SaltRounds := 12

  const UserExistsError := "Usuario ya existe"
  const UserExistsMessage := "El nombre de usuario ya está registrado en el sistema"
  const RegisteredMessage := "Usuario registrado exitosamente"
  const BadCredentialsError := "Credenciales inválidas"
  const BadCredentialsMessage := "Usuario o contraseña incorrectos"
  const LoginMessage := "Login exitoso"
  const UserNotFoundError := "Usuario no encontrado"
  const UserNotFoundMessage := "El usuario especificado no existe"
  const ProfileMessage := "Perfil obtenido exitosamente"
  const InternalError := "Error interno del servidor"
  const RegisterFailedMessage := "Ocurrió un error al procesar el registro"

  /** A handler's effect: the user table after it and the response. */
  datatype Outcome = Outcome(db: UserTable, response: Response)

  /** `email || null`: an absent or empty email is stored as NULL. */
  function EmailOrNull(email: Option<string>): (r: Option<string>)
    ensures r.Some? <==> email.Some? && email.value != []
    ensures r.Some? ==> r.value == email.value
  {
    if email.Some? && email.value != [] then email else None
  }

  /** `SELECT id, username, email, created_at FROM users` as JSON. */
  function NewUserJson(u: User): Json {
    JObj([("id", JInt(u.id)), ("username", JStr(u.username)),
          ("email", Nullable(u.email)), ("created_at", JInt(u.createdAt))])
  }

  /** `SELECT id, username, password_hash, email FROM users` as JSON. */
  function LoginRowJson(u: User): Json {
    JObj([("id", JInt(u.id)), ("username", JStr(u.username)),
          ("password_hash", JStr(u.passwordHash)), ("email", Nullable(u.email))])
  }

  /** `SELECT id, username, email, created_at, updated_at FROM users` as
      JSON. */
  function ProfileJson(u: User): Json {
    JObj([("id", JInt(u.id)), ("username", JStr(u.username)), ("email", Nullable(u.email)),
          ("created_at", JInt(u.createdAt)), ("updated_at", JInt(u.updatedAt))])
  }

  /** `register`: a taken name is refused with 400 and nothing stored;
      otherwise the user is stored with a 12-round hash, and the response
      carries the new row and a token for its id and name. */
  function Register(db: UserTable, username: string, password: string, email: Option<string>,
                    bcrypt: Bcrypt, jwt: Jwt, now: int): (r: Outcome)
    requires Valid(db)
    ensures Valid(r.db)
    ensures r.response.status == 400 <==> ByName(db, username).Some?
    ensures r.response.status == 400 ==> r.db == db
    ensures r.response.status != 400 ==> r.response.status == 201
    ensures r.response.status == 201 ==>
      var id := |db.rows| + 1;
      && ById(r.db, id) == Some(User(id, username, bcrypt.hash(password, SaltRounds), EmailOrNull(email), now, now))
      && (forall other :: other != id ==> ById(r.db, other) == ById(db, other))
      && r.response.body == JObj([("message", JStr(RegisteredMessage)),
                                  ("user", NewUserJson(ById(r.db, id).value)),
                                  ("token", JStr(jwt.sign(Claims(id, username))))])
  {
    if ByName(db, username).Some? then
      Outcome(db, Response(400, ErrorMessageBody(UserExistsError, UserExistsMessage)))
    else
      var hash := bcrypt.hash(password, SaltRounds);
      match Insert(db, username, hash, EmailOrNull(email), now)
      case None => Outcome(db, Response(500, ErrorMessageBody(InternalError, RegisterFailedMessage)))
      case Some((db', id)) =>
        var token := jwt.sign(Claims(id, username));
        var user := ById(db', id).value;
        Outcome(db', Response(201, JObj([("message", JStr(RegisteredMessage)),
                                         ("user", NewUserJson(user)),
                                         ("token", JStr(token))])))
  }

  /** What a login returns of the user: the selected row without
      `password_hash`. */
  function PublicUser(u: User): Json {
    JObj([("id", JInt(u.id)), ("username", JStr(u.username)), ("email", Nullable(u.email))])
  }

  /** Removing `password_hash` from the login row leaves id, name and email
      in order. */
  lemma LoginRowWithoutHash(u: User)
    ensures JObj(Without(LoginRowJson(u).members, "password_hash")) == PublicUser(u)
  {
    var row := LoginRowJson(u).members;
    var email := [("email", Nullable(u.email))];
    assert row[1..][1..][1..] == email;
    assert email[1..] == [];
    assert Without(row[1..][1..], "password_hash") == Without(email, "password_hash");
    assert Without(row[1..], "password_hash") == [row[1]] + Without(email, "password_hash");
  }

  /** `login`: an unknown name and a wrong password get the same 401;
      success signs a token for the stored id and name, refreshes only that
      user's `updated_at` and returns the row without its hash. */
  function Login(db: UserTable, username: string, password: string, bcrypt: Bcrypt, jwt: Jwt, now: int)
    : (r: Outcome)
    requires Valid(db)
    ensures Valid(r.db)
    ensures r.response.status == 200 <==>
      ByName(db, username).Some? && bcrypt.compare(password, ByName(db, username).value.passwordHash)
    ensures r.response.status != 200 ==>
      r == Outcome(db, Response(401, ErrorMessageBody(BadCredentialsError, BadCredentialsMessage)))
    ensures r.response.status == 200 ==>
      var u := ByName(db, username).value;
      && ById(r.db, u.id) == Some(u.(updatedAt := now))
      && (forall other :: other != u.id ==> ById(r.db, other) == ById(db, other))
      && r.response.body == JObj([("message", JStr(LoginMessage)), ("user", PublicUser(u)),
                                  ("token", JStr(jwt.sign(Claims(u.id, u.username))))])
  {
    var refused := Outcome(db, Response(401, ErrorMessageBody(BadCredentialsError, BadCredentialsMessage)));
    match ByName(db, username)
    case None => refused
    case Some(u) =>
      if !bcrypt.compare(password, u.passwordHash) then refused
      else
        var token := jwt.sign(Claims(u.id, u.username));
        var db' := Touch(db, u.id, now);
        LoginRowWithoutHash(u);
        var userWithoutPassword := Without(LoginRowJson(u).members, "password_hash");
        Outcome(db', Response(200, JObj([("message", JStr(LoginMessage)), ("user", JObj(userWithoutPassword)),
                                         ("token", JStr(token))])))
  }

  /** `getProfile`: the user named by the token's `userId`, or 404 when
      that user does not exist. Nothing changes. */
  function GetProfile(db: UserTable, claims: Claims): (r: Response)
    requires Valid(db)
    ensures r.status == 200 <==> ById(db, claims.userId).Some?
    ensures r.status != 200 ==> r == Response(404, ErrorMessageBody(UserNotFoundError, UserNotFoundMessage))
    ensures r.status == 200 ==>
      r.body == JObj([("message", JStr(ProfileMessage)), ("user", ProfileJson(ById(db, claims.userId).value))])
  {
    match ById(db, claims.userId)
    case None => Response(404, ErrorMessageBody(UserNotFoundError, UserNotFoundMessage))
    case Some(u) => Response(200, JObj([("message", JStr(ProfileMessage)), ("user", ProfileJson(u))]))
  }

  /** Registering and then logging in with the same password succeeds and
      signs a token for the new id, provided bcrypt accepts a password
      against its own hash. */
  lemma RegisterThenLogin(db: UserTable, username: string, password: string, email: Option<string>,
                          bcrypt: Bcrypt, jwt: Jwt, t1: int, t2: int)
    requires Valid(db)
    requires ByName(db, username).None?
    requires bcrypt.compare(password, bcrypt.hash(password, SaltRounds))
    ensures var reg := Register(db, username, password, email, bcrypt, jwt, t1);
      var log := Login(reg.db, username, password, bcrypt, jwt, t2);
      && reg.response.status == 201
      && log.response.status == 200
      && log.response.body.members[2] == ("token", JStr(jwt.sign(Claims(|db.rows| + 1, username))))
  {
    var reg := Register(db, username, password, email, bcrypt, jwt, t1);
    var id := |db.rows| + 1;
    var ins := Insert(db, username, bcrypt.hash(password, SaltRounds), EmailOrNull(email), t1);
    assert ins.Some?;
    assert reg.db == ins.value.0;
    assert ByName(reg.db, username) == ById(reg.db, id);
  }

  /** A second registration of a name that just registered is refused and
      changes nothing. */
  lemma RegisterTwiceRefused(db: UserTable, username: string, p1: string, p2: string,
                             e1: Option<string>, e2: Option<string>, bcrypt: Bcrypt, jwt: Jwt, t1: int, t2: int)
    requires Valid(db)
    requires Register(db, username, p1, e1, bcrypt, jwt, t1).response.status == 201
    ensures var db1 := Register(db, username, p1, e1, bcrypt, jwt, t1).db;
      Register(db1, username, p2, e2, bcrypt, jwt, t2) ==
        Outcome(db1, Response(400, ErrorMessageBody(UserExistsError, UserExistsMessage)))
  {
    var ins := Insert(db, username, bcrypt.hash(p1, SaltRounds), EmailOrNull(e1), t1);
    assert ins.Some?;
    assert ByName(ins.value.0, username).Some?;
  }
}
