/** The SQLite stand-alone server. SQLite leaves foreign keys unenforced
    unless a connection asks for them and this server does not, so its
    inserts never fail on `user_id`. */
module SqliteServer {
  import opened Wrappers
  import opened Http
  import opened Crypto
  import Users
  import opened Records
  import opened AuthMiddleware
  import opened ServerCommon

  const TokenValidMessage := "Token válido"

  /** A value of a `DATETIME` column as this server can store it: a
      timestamp, or the text of a literal bound as a parameter. */
  datatype Stamp = At(time: int) | Literal(text: string)

  /** The `reminders` columns of this schema. */
  datatype Reminder = Reminder(title: string, description: string, date: string, reminderTime: string)

  /** The `goals` columns of this schema; `is_completed` holds 0 or 1. */
  datatype Goal = Goal(
    title: string, description: Option<string>, deadline: Option<string>, priority: Option<string>,
    isCompleted: int, completedAt: Option<Stamp>)

  datatype ReminderBody = ReminderBody(
    title: Option<string>, description: Option<string>, date: Option<string>, reminderTime: Option<string>)

  /** A goal body; `POST` reads `target_date`, `PUT` reads `deadline`. The
      truthiness of `is_completed` is what the handlers use of it. */
  datatype GoalBody = GoalBody(
    title: Option<string>, description: Option<string>, targetDate: Option<string>,
    deadline: Option<string>, priority: Option<string>, isCompleted: bool)

  datatype State = State(
    users: Users.UserTable, medications: Table<Medication>, reminders: Table<Reminder>, goals: Table<Goal>)

  predicate Valid(s: State) {
    Users.Valid(s.users) && Records.Valid(s.medications) && Records.Valid(s.reminders) && Records.Valid(s.goals)
  }

  datatype Served = Served(state: State, response: Response)

  // ---------------------------------------------------------------- auth

  /** `POST /api/auth/register`: missing credentials and a taken name get
      400 and store nothing; otherwise the user is stored with a 10-round
      hash and the email as sent, and the answer echoes the request's
      `email`, which `JSON.stringify` drops when it was not sent. */
  function Register(users: Users.UserTable, body: Credentials, bcrypt: Bcrypt, jwt: Jwt, now: int)
    : (r: (Users.UserTable, Response))
    requires Users.Valid(users)
    ensures Users.Valid(r.0)
    ensures r.1.status == 400 <==>
      !Truthy(body.username) || !Truthy(body.password) || Users.ByName(users, body.username.value).Some?
    ensures r.1.status == 400 ==> r.0 == users
    ensures r.1.status != 400 ==>
      var id := |users.rows| + 1;
      var name := body.username.value;
      && r.1.status == 201
      && Users.ById(r.0, id) == Some(Users.User(id, name, bcrypt.hash(body.password.value, HashRounds), body.email, now, now))
      && (forall other :: other != id ==> Users.ById(r.0, other) == Users.ById(users, other))
      && r.1.body == SessionBody(RegisteredMessage,
                                 JObj([("id", JInt(id)), ("username", JStr(name))] + MaybeMember("email", body.email)),
                                 jwt.sign(Claims(id, name)))
  {
    if !Truthy(body.username) || !Truthy(body.password) then
      (users, Response(400, ErrorBody(CredentialsRequiredError)))
    else if Users.ByName(users, body.username.value).Some? then
      (users, Response(400, ErrorBody(UserExistsError)))
    else
      var name := body.username.value;
      match Users.Insert(users, name, bcrypt.hash(body.password.value, HashRounds), body.email, now)
      case None => (users, Response(500, ErrorBody(InternalError)))
      case Some((users', id)) =>
        (users', Response(201, SessionBody(RegisteredMessage,
                                           JObj([("id", JInt(id)), ("username", JStr(name))] + MaybeMember("email", body.email)),
                                           jwt.sign(Claims(id, name)))))
  }

  /** `GET /api/auth/verify` after authentication: the token's user, or
      404 when no row has its id. */
  function VerifyUser(users: Users.UserTable, claims: Claims): (r: Response)
    requires Users.Valid(users)
    ensures r.status == 200 <==> Users.ById(users, claims.userId).Some?
    ensures r.status != 200 ==> r == Response(404, ErrorBody(UserNotFoundError))
    ensures r.status == 200 ==>
      r.body == JObj([("message", JStr(TokenValidMessage)), ("user", UserJson(Users.ById(users, claims.userId).value))])
  {
    match Users.ById(users, claims.userId)
    case None => Response(404, ErrorBody(UserNotFoundError))
    case Some(u) => Response(200, JObj([("message", JStr(TokenValidMessage)), ("user", UserJson(u))]))
  }

  // --------------------------------------------------------- medications

  /** `POST /api/medications`: 400 and nothing stored unless the four
      required fields are truthy; otherwise the stored row, owned by the
      caller. */
  function CreateMedication(t: Table<Medication>, user: int, body: MedicationBody, now: int)
    : (r: (Table<Medication>, Response))
    requires Records.Valid(t)
    ensures Records.Valid(r.0)
    ensures r.1.status == 400 <==> !HasRequiredMedicationFields(body)
    ensures r.1.status == 400 ==> r == (t, Response(400, ErrorBody(MissingFieldsError)))
    ensures r.1.status != 400 ==>
      var row := Row(t.nextId, user, now, now, MedicationOf(body));
      r.1 == Response(201, MedicationJson(row)) && GetOwned(r.0, t.nextId, user) == Some(row)
      && Get(t, t.nextId).None?
      && r.0 == Records.Insert(t, user, MedicationOf(body), now).0
      && (forall other :: other != t.nextId ==> Get(r.0, other) == Get(t, other))
      && (forall other :: other != user ==> Owned(r.0, other) == Owned(t, other))
      && Owned(r.0, user) == Owned(t, user) + [row]
  {
    if !HasRequiredMedicationFields(body) then (t, Response(400, ErrorBody(MissingFieldsError)))
    else
      var (t', row) := Records.Insert(t, user, MedicationOf(body), now);
      (t', Response(201, MedicationJson(row)))
  }

  /** `PUT /api/medications/:id`: the four fields are required before the
      table is looked at; then 404 unless the caller owns the row; then
      every column is rewritten from the body and `updated_at` set. */
  function UpdateMedication(t: Table<Medication>, id: int, user: int, body: MedicationBody, now: int)
    : (r: (Table<Medication>, Response))
    requires Records.Valid(t)
    ensures Records.Valid(r.0)
    ensures r.1.status == 400 <==> !HasRequiredMedicationFields(body)
    ensures r.1.status == 404 <==> HasRequiredMedicationFields(body) && GetOwned(t, id, user).None?
    ensures r.1.status == 400 || r.1.status == 404 ==> r.0 == t
    ensures r.1.status != 400 && r.1.status != 404 ==>
      var row := GetOwned(t, id, user).value.(updatedAt := now, data := MedicationOf(body));
      r.1 == Response(200, MedicationJson(row)) && Get(r.0, id) == Some(row)
    ensures forall other :: other != id ==> Get(r.0, other) == Get(t, other)
    ensures forall other :: other != user ==> Owned(r.0, other) == Owned(t, other)
  {
    if !HasRequiredMedicationFields(body) then (t, Response(400, ErrorBody(MissingFieldsError)))
    else
      var m := MedicationOf(body);
      match Records.Update(t, id, user, _ => m, now)
      case (_, None) => (t, Response(404, ErrorBody(MedicationNotFoundError)))
      case (t', Some(row)) => (t', Response(200, MedicationJson(row)))
  }

  // ----------------------------------------------------------- reminders

  function ReminderJson(r: Row<Reminder>): Json {
    JObj([("id", JInt(r.id)), ("user_id", JInt(r.userId)), ("title", JStr(r.data.title)),
          ("description", JStr(r.data.description)), ("date", JStr(r.data.date)),
          ("reminder_time", JStr(r.data.reminderTime)),
          ("created_at", JInt(r.createdAt)), ("updated_at", JInt(r.updatedAt))])
  }

  predicate HasRequiredReminderFields(b: ReminderBody) {
    Truthy(b.title) && Truthy(b.description) && Truthy(b.date) && Truthy(b.reminderTime)
  }

  /** `POST /api/reminders`: all four fields are required, `description`
      included. */
  function CreateReminder(t: Table<Reminder>, user: int, body: ReminderBody, now: int)
    : (r: (Table<Reminder>, Response))
    requires Records.Valid(t)
    ensures Records.Valid(r.0)
    ensures r.1.status == 400 <==> !HasRequiredReminderFields(body)
    ensures r.1.status == 400 ==> r == (t, Response(400, ErrorBody(MissingFieldsError)))
    ensures r.1.status != 400 ==>
      var data := Reminder(body.title.value, body.description.value, body.date.value, body.reminderTime.value);
      var row := Row(t.nextId, user, now, now, data);
      r.1 == Response(201, ReminderJson(row)) && GetOwned(r.0, t.nextId, user) == Some(row)
      && r.0 == Records.Insert(t, user, data, now).0
      && (forall other :: other != t.nextId ==> Get(r.0, other) == Get(t, other))
      && (forall other :: other != user ==> Owned(r.0, other) == Owned(t, other))
      && Owned(r.0, user) == Owned(t, user) + [row]
  {
    if !HasRequiredReminderFields(body) then (t, Response(400, ErrorBody(MissingFieldsError)))
    else
      var data := Reminder(body.title.value, body.description.value, body.date.value, body.reminderTime.value);
      var (t', row) := Records.Insert(t, user, data, now);
      (t', Response(201, ReminderJson(row)))
  }

  // --------------------------------------------------------------- goals

  function StampJson(v: Option<Stamp>): Json {
    match v
    case None => JNull
    case Some(At(n)) => JInt(n)
    case Some(Literal(s)) => JStr(s)
  }

  function GoalJson(r: Row<Goal>): Json {
    JObj([("id", JInt(r.id)), ("user_id", JInt(r.userId)), ("title", JStr(r.data.title)),
          ("description", Nullable(r.data.description)), ("deadline", Nullable(r.data.deadline)),
          ("priority", Nullable(r.data.priority)), ("is_completed", JInt(r.data.isCompleted)),
          ("completed_at", StampJson(r.data.completedAt)),
          ("created_at", JInt(r.createdAt)), ("updated_at", JInt(r.updatedAt))])
  }

  /** `POST /api/goals`: `title` is required; `target_date` is stored as
      `deadline`; a `priority` that was not sent is bound as NULL, so the
      column default is not used. */
  function CreateGoal(t: Table<Goal>, user: int, body: GoalBody, now: int): (r: (Table<Goal>, Response))
    requires Records.Valid(t)
    ensures Records.Valid(r.0)
    ensures r.1.status == 400 <==> !Truthy(body.title)
    ensures r.1.status == 400 ==> r == (t, Response(400, ErrorBody(TitleRequiredError)))
    ensures r.1.status != 400 ==>
      var data := Goal(body.title.value, body.description, body.targetDate, body.priority, 0, None);
      var row := Row(t.nextId, user, now, now, data);
      r.1 == Response(201, GoalJson(row)) && GetOwned(r.0, t.nextId, user) == Some(row)
      && r.0 == Records.Insert(t, user, data, now).0
      && (forall other :: other != t.nextId ==> Get(r.0, other) == Get(t, other))
      && (forall other :: other != user ==> Owned(r.0, other) == Owned(t, other))
      && Owned(r.0, user) == Owned(t, user) + [row]
  {
    if !Truthy(body.title) then (t, Response(400, ErrorBody(TitleRequiredError)))
    else
      var data := Goal(body.title.value, body.description, body.targetDate, body.priority, 0, None);
      var (t', row) := Records.Insert(t, user, data, now);
      (t', Response(201, GoalJson(row)))
  }

  /** The `completed_at` value the goal update binds, as written: the text
      `'CURRENT_TIMESTAMP'` or the text `'NULL'`, never a timestamp and
      never NULL. */
  function CompletedAtAsWritten(completed: bool): Option<Stamp> {
    Some(Literal(if completed then "CURRENT_TIMESTAMP" else "NULL"))
  }

  /** The `completed_at` the update evidently means: the time of the
      update when completed, NULL otherwise. */
  function CompletedAt(completed: bool, now: int): (r: Option<Stamp>)
    ensures r.Some? <==> completed
    ensures r.Some? ==> r.value == At(now)
  {
    if completed then Some(At(now)) else None
  }

  /** The columns a goal update writes, given the `completed_at` it binds;
      `priority` keeps its value. */
  function EditGoal(body: GoalBody, completedAt: Option<Stamp>, g: Goal): (r: Goal)
    requires body.title.Some?
    ensures r.title == body.title.value && r.description == body.description && r.deadline == body.deadline
    ensures r.priority == g.priority
    ensures r.isCompleted == (if body.isCompleted then 1 else 0) && r.completedAt == completedAt
  {
    Goal(body.title.value, body.description, body.deadline, g.priority,
         if body.isCompleted then 1 else 0, completedAt)
  }

  /** `PUT /api/goals/:id` with a given `completed_at`: `title` is
      required; then 404 unless the caller owns the row. */
  function UpdateGoalWith(t: Table<Goal>, id: int, user: int, body: GoalBody, completedAt: Option<Stamp>, now: int)
    : (r: (Table<Goal>, Response))
    requires Records.Valid(t)
    ensures Records.Valid(r.0)
    ensures r.1.status == 400 <==> !Truthy(body.title)
    ensures r.1.status == 404 <==> Truthy(body.title) && GetOwned(t, id, user).None?
    ensures r.1.status == 400 || r.1.status == 404 ==> r.0 == t
    ensures r.1.status != 400 && r.1.status != 404 ==>
      var prev := GetOwned(t, id, user).value;
      var row := prev.(updatedAt := now, data := EditGoal(body, completedAt, prev.data));
      r.1 == Response(200, GoalJson(row)) && Get(r.0, id) == Some(row)
    ensures forall other :: other != id ==> Get(r.0, other) == Get(t, other)
    ensures forall other :: other != user ==> Owned(r.0, other) == Owned(t, other)
  {
    if !Truthy(body.title) then (t, Response(400, ErrorBody(TitleRequiredError)))
    else
      match Records.Update(t, id, user, g => EditGoal(body, completedAt, g), now)
      case (_, None) => (t, Response(404, ErrorBody(GoalNotFoundError)))
      case (t', Some(row)) => (t', Response(200, GoalJson(row)))
  }

  /** The goal update as written. */
  function UpdateGoalAsWritten(t: Table<Goal>, id: int, user: int, body: GoalBody, now: int)
    : (r: (Table<Goal>, Response))
    requires Records.Valid(t)
    ensures Records.Valid(r.0)
    ensures r.1.status == 200 ==>
      Get(r.0, id).Some? && Get(r.0, id).value.data.completedAt == CompletedAtAsWritten(body.isCompleted)
  {
    UpdateGoalWith(t, id, user, body, CompletedAtAsWritten(body.isCompleted), now)
  }

  /** A goal is complete exactly when it has a completion time. */
  predicate CompletionConsistent(g: Goal) {
    (g.isCompleted == 1 <==> g.completedAt.Some?) && (g.completedAt.Some? ==> g.completedAt.value.At?)
  }

  /** Un-completing a goal through the update as written leaves a non-NULL
      `completed_at` (the text `NULL`), and completing one stores a text,
      not a time. */
  lemma UpdateGoalAsWrittenBreaksCompletion(t: Table<Goal>, id: int, user: int, body: GoalBody, now: int)
    requires Records.Valid(t)
    requires Truthy(body.title) && GetOwned(t, id, user).Some?
    ensures var r := UpdateGoalAsWritten(t, id, user, body, now);
      r.1.status == 200 && !CompletionConsistent(Get(r.0, id).value.data)
  {
  }

  /** `PUT /api/goals/:id` with `completed_at` bound as intended. */
  function UpdateGoal(t: Table<Goal>, id: int, user: int, body: GoalBody, now: int): (r: (Table<Goal>, Response))
    requires Records.Valid(t)
    ensures Records.Valid(r.0)
    ensures r.1.status == 200 ==> Get(r.0, id).Some? && CompletionConsistent(Get(r.0, id).value.data)
    ensures r.1.status == 200 ==> Get(r.0, id).value.data.isCompleted == (if body.isCompleted then 1 else 0)
    ensures r.1.status != 200 ==> r.0 == t
  {
    UpdateGoalWith(t, id, user, body, CompletedAt(body.isCompleted, now), now)
  }

  /** The two updates agree on the status and on every column but
      `completed_at`. */
  lemma UpdateGoalsAgreeElsewhere(t: Table<Goal>, id: int, user: int, body: GoalBody, now: int)
    requires Records.Valid(t)
    ensures var a := UpdateGoalAsWritten(t, id, user, body, now);
      var b := UpdateGoal(t, id, user, body, now);
      a.1.status == b.1.status
      && (forall other :: other != id ==> Get(a.0, other) == Get(b.0, other))
      && (b.1.status == 200 ==>
            Get(a.0, id).value == Get(b.0, id).value.(data := Get(b.0, id).value.data.(completedAt := CompletedAtAsWritten(body.isCompleted))))
  {
  }

  /** `DELETE /api/goals/:id`. */
  function DeleteGoal(t: Table<Goal>, id: int, user: int): (r: (Table<Goal>, Response))
    requires Records.Valid(t)
    ensures Records.Valid(r.0)
    ensures r.1.status == 404 <==> GetOwned(t, id, user).None?
    ensures r.1.status == 404 ==> r == (t, Response(404, ErrorBody(GoalNotFoundError)))
    ensures r.1.status != 404 ==>
      r.1 == Response(200, JObj([("message", JStr(GoalDeletedMessage))])) && Get(r.0, id).None?
    ensures forall other :: other != id ==> Get(r.0, other) == Get(t, other)
    ensures forall other :: other != user ==> Owned(r.0, other) == Owned(t, other)
  {
    var (t', deleted) := Delete(t, id, user);
    if !deleted then (t, Response(404, ErrorBody(GoalNotFoundError)))
    else (t', Response(200, JObj([("message", JStr(GoalDeletedMessage))])))
  }

  // ------------------------------------------------------------ dispatch

  /** The endpoints of the server. */
  datatype Request =
    | RegisterUser(credentials: Credentials)
    | LoginUser(credentials: Credentials)
    | VerifyToken
    | ListMedicationsOf
    | CreateMedicationOf(medication: MedicationBody)
    | UpdateMedicationOf(id: int, medication: MedicationBody)
    | DeleteMedicationOf(id: int)
    | ListRemindersOf
    | CreateReminderOf(reminder: ReminderBody)
    | ListGoalsOf
    | CreateGoalOf(goal: GoalBody)
    | UpdateGoalOf(id: int, goal: GoalBody)
    | DeleteGoalOf(id: int)

  /** Register and login are open; every other endpoint runs behind the
      server's `authenticateToken` and acts for the token's user. */
  predicate Open(req: Request) {
    req.RegisterUser? || req.LoginUser?
  }

  /** The handler of an authenticated endpoint, acting for `user`. A goal
      update runs as written. */
  function Handle(s: State, req: Request, claims: Claims, now: int): (r: Served)
    requires Valid(s) && !Open(req)
    ensures Valid(r.state)
    ensures r.state.users == s.users
  {
    var user := claims.userId;
    match req
    case VerifyToken => Served(s, VerifyUser(s.users, claims))
    case ListMedicationsOf => Served(s, ListOwned(s.medications, user, MedicationJson))
    case CreateMedicationOf(b) =>
      var (t, resp) := CreateMedication(s.medications, user, b, now);
      Served(s.(medications := t), resp)
    case UpdateMedicationOf(id, b) =>
      var (t, resp) := UpdateMedication(s.medications, id, user, b, now);
      Served(s.(medications := t), resp)
    case DeleteMedicationOf(id) =>
      var (t, resp) := DeleteMedication(s.medications, id, user);
      Served(s.(medications := t), resp)
    case ListRemindersOf => Served(s, ListOwned(s.reminders, user, ReminderJson))
    case CreateReminderOf(b) =>
      var (t, resp) := CreateReminder(s.reminders, user, b, now);
      Served(s.(reminders := t), resp)
    case ListGoalsOf => Served(s, ListOwned(s.goals, user, GoalJson))
    case CreateGoalOf(b) =>
      var (t, resp) := CreateGoal(s.goals, user, b, now);
      Served(s.(goals := t), resp)
    case UpdateGoalOf(id, b) =>
      var (t, resp) := UpdateGoalAsWritten(s.goals, id, user, b, now);
      Served(s.(goals := t), resp)
    case DeleteGoalOf(id) =>
      var (t, resp) := DeleteGoal(s.goals, id, user);
      Served(s.(goals := t), resp)
  }

  /** One request against the server. */
  function Serve(s: State, req: Request, header: Option<string>, bcrypt: Bcrypt, jwt: Jwt, now: int): (r: Served)
    requires Valid(s)
    ensures Valid(r.state)
    ensures !Open(req) && ServerAuthenticateToken(header, jwt).Halt? ==>
      r == Served(s, ServerAuthenticateToken(header, jwt).response)
    ensures req.LoginUser? ==> r.state == s
  {
    match req
    case RegisterUser(c) =>
      var (users, resp) := Register(s.users, c, bcrypt, jwt, now);
      Served(s.(users := users), resp)
    case LoginUser(c) => Served(s, Login(s.users, c, bcrypt, jwt))
    case _ =>
      match ServerAuthenticateToken(header, jwt)
      case Halt(resp) => Served(s, resp)
      case Next(claims) => Handle(s, req, claims, now)
  }

  /** A request without a token reaches no handler and changes nothing;
      register and login do not look at the header at all. */
  lemma OnlyOpenEndpointsWithoutToken(s: State, req: Request, header: Option<string>, header': Option<string>,
                                      bcrypt: Bcrypt, jwt: Jwt, now: int)
    requires Valid(s)
    ensures !Open(req) && ExtractToken(header).None? ==>
      Serve(s, req, header, bcrypt, jwt, now) == Served(s, Response(401, ErrorBody(TokenRequiredError)))
    ensures Open(req) ==> Serve(s, req, header, bcrypt, jwt, now) == Serve(s, req, header', bcrypt, jwt, now)
  {
  }

  /** Whatever one user does, another user's rows in every table stay as
      they were. */
  lemma OtherUsersUntouched(s: State, req: Request, claims: Claims, now: int, other: int)
    requires Valid(s) && !Open(req) && other != claims.userId
    ensures var r := Handle(s, req, claims, now).state;
      && Owned(r.medications, other) == Owned(s.medications, other)
      && Owned(r.reminders, other) == Owned(s.reminders, other)
      && Owned(r.goals, other) == Owned(s.goals, other)
  {
  }
}
