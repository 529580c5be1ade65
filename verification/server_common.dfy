/** What the two stand-alone servers share: their error texts, the
    truthiness test on request fields, the login handler (the same in
    both), and the medication columns, which both schemas declare alike. */
module ServerCommon {
  import opened Wrappers
  import opened Http
  import opened Crypto
  import opened Users
  import opened Records

  /** Both servers hash with 10 bcrypt rounds. */
  const HashRounds := 10

  const CredentialsRequiredError := "Usuario y contraseña son requeridos"
  const UserExistsError := "El usuario ya existe"
  const BadCredentialsError := "Credenciales inválidas"
  const InternalError := "Error interno del servidor"
  const RegisteredMessage := "Usuario registrado exitosamente"
  const LoginMessage := "Login exitoso"
  const UserNotFoundError := "Usuario no encontrado"
  const MissingFieldsError := "Campos requeridos faltantes"
  const MedicationNotFoundError := "Medicamento no encontrado"
  const MedicationDeletedMessage := "Medicamento eliminado exitosamente"
  const TitleRequiredError := "Título es requerido"
  const GoalNotFoundError := "Meta no encontrada"
  const GoalDeletedMessage := "Meta eliminada exitosamente"

  /** JavaScript truthiness of a string field: present and not empty. */
  predicate Truthy(v: Option<string>) {
    v.Some? && v.value != []
  }

  /** The `{ username, password, email }` of a register or login body. */
  datatype Credentials = Credentials(username: Option<string>, password: Option<string>, email: Option<string>)

  /** `{ id, username, email }` of a stored user. */
  function UserJson(u: User): Json {
    JObj([("id", JInt(u.id)), ("username", JStr(u.username)), ("email", Nullable(u.email))])
  }

  /** `{ message, user, token }` */
  function SessionBody(message: string, user: Json, token: string): Json {
    JObj([("message", JStr(message)), ("user", user), ("token", JStr(token))])
  }

  /** `POST /api/auth/login` of both servers: missing credentials get 400;
      an unknown name and a wrong password get the same 401; success signs
      the stored id and name. No row changes. */
  function Login(users: UserTable, body: Credentials, bcrypt: Bcrypt, jwt: Jwt): (r: Response)
    ensures r.status == 400 <==> !Truthy(body.username) || !Truthy(body.password)
    ensures r.status == 400 ==> r == Response(400, ErrorBody(CredentialsRequiredError))
    ensures r.status == 200 <==>
      Truthy(body.username) && Truthy(body.password) && ByName(users, body.username.value).Some?
      && bcrypt.compare(body.password.value, ByName(users, body.username.value).value.passwordHash)
    ensures r.status != 200 && r.status != 400 ==> r == Response(401, ErrorBody(BadCredentialsError))
    ensures r.status == 200 ==>
      var u := ByName(users, body.username.value).value;
      r.body == SessionBody(LoginMessage, UserJson(u), jwt.sign(Claims(u.id, u.username)))
  {
    if !Truthy(body.username) || !Truthy(body.password) then
      Response(400, ErrorBody(CredentialsRequiredError))
    else
      match ByName(users, body.username.value)
      case None => Response(401, ErrorBody(BadCredentialsError))
      case Some(u) =>
        if !bcrypt.compare(body.password.value, u.passwordHash) then Response(401, ErrorBody(BadCredentialsError))
        else Response(200, SessionBody(LoginMessage, UserJson(u), jwt.sign(Claims(u.id, u.username))))
  }

  /** An unknown user and a wrong password are told apart by nothing in
      the response. */
  lemma LoginRefusalsAlike(users: UserTable, body: Credentials, body': Credentials, bcrypt: Bcrypt, jwt: Jwt)
    requires Truthy(body.username) && Truthy(body.password)
    requires ByName(users, body.username.value).None?
    requires Truthy(body'.username) && Truthy(body'.password)
    requires ByName(users, body'.username.value).Some?
    requires !bcrypt.compare(body'.password.value, ByName(users, body'.username.value).value.passwordHash)
    ensures Login(users, body, bcrypt, jwt) == Login(users, body', bcrypt, jwt)
  {
  }

  /** The columns of a `medications` row after `id` and `user_id`. */
  datatype Medication = Medication(
    name: string, dose: string, frequency: string, time: string,
    expiryDate: Option<string>, notes: Option<string>)

  /** The medication fields of a request body. */
  datatype MedicationBody = MedicationBody(
    name: Option<string>, dose: Option<string>, frequency: Option<string>, time: Option<string>,
    expiryDate: Option<string>, notes: Option<string>)

  /** `!name || !dose || !frequency || !time` is false. */
  predicate HasRequiredMedicationFields(b: MedicationBody) {
    Truthy(b.name) && Truthy(b.dose) && Truthy(b.frequency) && Truthy(b.time)
  }

  /** The columns a body with every `NOT NULL` field present writes. */
  function MedicationOf(b: MedicationBody): (m: Medication)
    requires b.name.Some? && b.dose.Some? && b.frequency.Some? && b.time.Some?
    ensures Some(m.name) == b.name && Some(m.dose) == b.dose
    ensures Some(m.frequency) == b.frequency && Some(m.time) == b.time
    ensures m.expiryDate == b.expiryDate && m.notes == b.notes
  {
    Medication(b.name.value, b.dose.value, b.frequency.value, b.time.value, b.expiryDate, b.notes)
  }

  /** A `medications` row as `SELECT *` returns it. */
  function MedicationJson(r: Row<Medication>): Json {
    JObj([("id", JInt(r.id)), ("user_id", JInt(r.userId)), ("name", JStr(r.data.name)),
          ("dose", JStr(r.data.dose)), ("frequency", JStr(r.data.frequency)), ("time", JStr(r.data.time)),
          ("expiry_date", Nullable(r.data.expiryDate)), ("notes", Nullable(r.data.notes)),
          ("created_at", JInt(r.createdAt)), ("updated_at", JInt(r.updatedAt))])
  }

  /** A result set as a JSON array: one object per row, in order. */
  function RowsJson<D>(rows: seq<Row<D>>, toJson: Row<D> -> Json): (r: seq<Json>)
    ensures |r| == |rows|
    ensures forall i :: 0 <= i < |rows| ==> r[i] == toJson(rows[i])
  {
    if rows == [] then [] else [toJson(rows[0])] + RowsJson(rows[1..], toJson)
  }

  /** A `GET` of a whole collection (`SELECT * ... WHERE user_id = ? ORDER
      BY created_at DESC`): 200 with exactly the caller's rows, newest
      first. */
  function ListOwned<D>(t: Table<D>, user: int, toJson: Row<D> -> Json): (r: Response)
    requires Records.Valid(t)
    ensures r.status == 200 && r.body.JArr?
    ensures |r.body.items| == |List(t, user)|
    ensures forall i :: 0 <= i < |List(t, user)| ==>
      var row := List(t, user)[i];
      && row.id in t.rows && t.rows[row.id] == row && row.userId == user
      && r.body.items[i] == toJson(row)
  {
    ListMembers(t, user);
    Response(200, JArr(RowsJson(List(t, user), toJson)))
  }

  /** `DELETE /api/medications/:id` on the table alone: 404 and nothing
      removed unless the caller owns the row. */
  function DeleteMedication(t: Table<Medication>, id: int, user: int): (r: (Table<Medication>, Response))
    requires Records.Valid(t)
    ensures Records.Valid(r.0)
    ensures r.1.status == 404 <==> GetOwned(t, id, user).None?
    ensures r.1.status == 404 ==> r == (t, Response(404, ErrorBody(MedicationNotFoundError)))
    ensures r.1.status != 404 ==>
      r.1 == Response(200, JObj([("message", JStr(MedicationDeletedMessage))])) && Get(r.0, id).None?
    ensures forall other :: other != id ==> Get(r.0, other) == Get(t, other)
    ensures forall other :: other != user ==> Owned(r.0, other) == Owned(t, other)
  {
    var (t', deleted) := Delete(t, id, user);
    if !deleted then (t, Response(404, ErrorBody(MedicationNotFoundError)))
    else (t', Response(200, JObj([("message", JStr(MedicationDeletedMessage))])))
  }
}
