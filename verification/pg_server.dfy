/** The PostgreSQL stand-alone server. Its schema enforces what the SQLite
    one does not: `NOT NULL` and `VARCHAR(n)` columns, a `user_id` that
    must name a user, and a reminder's `medication_id` that must name a
    medication, with `ON DELETE CASCADE`. A statement that breaks one of
    these throws, and the handler's `catch` answers 500. */
module PgServer {
  import opened Wrappers
  import opened Http
  import opened Crypto
  import Users
  import opened Records
  import opened AuthMiddleware
  import opened ServerCommon

  const ReminderNotFoundError := "Recordatorio no encontrado"
  const ReminderDeletedMessage := "Recordatorio eliminado exitosamente"

  /** The days `days_of_week` gets when the request has none. */
  const EveryDay: seq<int> := [1, 2, 3, 4, 5, 6, 7]

  /** What a `VARCHAR(n)` column accepts: an absent value, one of at most
      `n` characters, or a longer one whose characters past the `n`-th are
      all spaces. Anything else makes the statement throw. The driver sends
      each statement unnamed, so PostgreSQL plans it with the bound values
      in place and checks the widths while planning: before any row is read
      and before `nextval` draws an id. */
  predicate Fits(v: Option<string>, n: nat) {
    v.None? || forall i :: n <= i < |v.value| ==> v.value[i] == ' '
  }

  /** What a `VARCHAR(n)` column stores of a value: its first `n`
      characters. Of a value the column accepts, only spaces are cut. */
  function Cut(v: Option<string>, n: nat): (r: Option<string>)
    ensures r.None? <==> v.None?
    ensures r.Some? ==> r.value <= v.value && |r.value| == (if |v.value| <= n then |v.value| else n)
    ensures r.Some? && Fits(v, n) ==> forall i :: |r.value| <= i < |v.value| ==> v.value[i] == ' '
  {
    match v
    case None => None
    case Some(x) => Some(if |x| <= n then x else x[..n])
  }

  /** The `reminders` columns of this schema. */
  datatype Reminder = Reminder(
    medicationId: int, reminderTime: string, daysOfWeek: Option<seq<int>>,
    isActive: Option<bool>, lastTaken: Option<int>)

  /** The `goals` columns of this schema; there is no `priority`. */
  datatype Goal = Goal(
    title: string, description: Option<string>, deadline: Option<string>,
    isCompleted: Option<bool>, completedAt: Option<int>)

  /** A reminder body; `medication_id` as the integer it carries. */
  datatype ReminderBody = ReminderBody(
    medicationId: Option<int>, reminderTime: Option<string>, daysOfWeek: Option<seq<int>>,
    isActive: Option<bool>)

  datatype GoalBody = GoalBody(
    title: Option<string>, description: Option<string>, deadline: Option<string>, isCompleted: Option<bool>)

  datatype State = State(
    users: Users.UserTable, medications: Table<Medication>, reminders: Table<Reminder>, goals: Table<Goal>)

  /** The foreign key of `reminders.medication_id`. */
  predicate RemindersReferToMedications(s: State) {
    forall id :: id in s.reminders.rows ==> Get(s.medications, s.reminders.rows[id].data.medicationId).Some?
  }

  predicate Valid(s: State) {
    && Users.Valid(s.users) && Records.Valid(s.medications) && Records.Valid(s.reminders) && Records.Valid(s.goals)
    && RemindersReferToMedications(s)
  }

  datatype Served = Served(state: State, response: Response)

  // ---------------------------------------------------------------- auth

  /** `POST /api/auth/register`: as in the SQLite server, except for the
      widths of `VARCHAR(50)` `username` and `VARCHAR(100)` `email`. The
      existence check looks for the name as sent, but the row stores it cut
      to 50 characters, so a cut name that is already taken breaks the
      `UNIQUE` constraint and throws. The answer's `email` is the stored
      column. */
  function Register(users: Users.UserTable, body: Credentials, bcrypt: Bcrypt, jwt: Jwt, now: int)
    : (r: (Users.UserTable, Response))
    requires Users.Valid(users)
    ensures Users.Valid(r.0)
    ensures r.1.status == 201 || r.1.status == 400 || r.1.status == 500
    ensures r.1.status == 400 <==>
      !Truthy(body.username) || !Truthy(body.password) || Users.ByName(users, body.username.value).Some?
    ensures r.1.status != 201 ==> r.0 == users
    ensures r.1.status == 500 <==>
      (&& r.1.status != 400
       && (|| !(Fits(body.username, 50) && Fits(body.email, 100))
           || (body.username.Some? && Users.ByName(users, Cut(body.username, 50).value).Some?)))
    ensures r.1.status == 201 ==>
      var id := |users.rows| + 1;
      var u := Users.User(id, Cut(body.username, 50).value, bcrypt.hash(body.password.value, HashRounds),
                          Cut(body.email, 100), now, now);
      && Users.ById(r.0, id) == Some(u)
      && (forall other :: other != id ==> Users.ById(r.0, other) == Users.ById(users, other))
      && r.1.body == SessionBody(RegisteredMessage, UserJson(u), jwt.sign(Claims(id, u.username)))
  {
    if !Truthy(body.username) || !Truthy(body.password) then
      (users, Response(400, ErrorBody(CredentialsRequiredError)))
    else if Users.ByName(users, body.username.value).Some? then
      (users, Response(400, ErrorBody(UserExistsError)))
    else if !(Fits(body.username, 50) && Fits(body.email, 100)) then
      (users, Response(500, ErrorBody(InternalError)))
    else
      var name := Cut(body.username, 50).value;
      match Users.Insert(users, name, bcrypt.hash(body.password.value, HashRounds), Cut(body.email, 100), now)
      case None => (users, Response(500, ErrorBody(InternalError)))
      case Some((users', id)) =>
        var u := Users.ById(users', id).value;
        (users', Response(201, SessionBody(RegisteredMessage, UserJson(u), jwt.sign(Claims(id, u.username)))))
  }

  // --------------------------------------------------------- medications

  /** The three `VARCHAR(100)` values fit, present or not: what planning
      checks. */
  predicate MedicationWidthsFit(b: MedicationBody) {
    Fits(b.name, 100) && Fits(b.dose, 100) && Fits(b.frequency, 100)
  }

  /** What the `medications` columns accept: the four `NOT NULL` columns
      present and the three `VARCHAR(100)` ones fitting. */
  predicate MedicationFits(b: MedicationBody) {
    && b.name.Some? && b.dose.Some? && b.frequency.Some? && b.time.Some?
    && MedicationWidthsFit(b)
  }

  /** The four `NOT NULL` columns present and the three `VARCHAR(100)`
      ones at most 100 characters: nothing is cut. */
  predicate MedicationShort(b: MedicationBody) {
    && b.name.Some? && b.dose.Some? && b.frequency.Some? && b.time.Some?
    && |b.name.value| <= 100 && |b.dose.value| <= 100 && |b.frequency.value| <= 100
  }

  /** The columns a medication body writes, the three `VARCHAR(100)` texts
      as the columns store them. A body that needs no cut is stored as
      sent. */
  function StoredMedication(b: MedicationBody): (m: Medication)
    requires b.name.Some? && b.dose.Some? && b.frequency.Some? && b.time.Some?
    ensures Some(m.name) == Cut(b.name, 100) && Some(m.dose) == Cut(b.dose, 100)
    ensures Some(m.frequency) == Cut(b.frequency, 100)
    ensures Some(m.time) == b.time && m.expiryDate == b.expiryDate && m.notes == b.notes
    ensures MedicationShort(b) ==> m == MedicationOf(b)
  {
    MedicationOf(b.(name := Cut(b.name, 100), dose := Cut(b.dose, 100), frequency := Cut(b.frequency, 100)))
  }

  /** `POST /api/medications`: the truthiness check, then the insert. The
      insert throws while planning when a column overflows, with no id
      drawn, and while running when the caller is not a user, which uses up
      the id `nextval` drew. */
  function CreateMedication(s: State, user: int, body: MedicationBody, now: int): (r: Served)
    requires Valid(s)
    ensures Valid(r.state)
    ensures r.response.status == 201 || r.response.status == 400 || r.response.status == 500
    ensures r.response.status == 400 <==> !HasRequiredMedicationFields(body)
    ensures r.response.status == 500 <==>
      HasRequiredMedicationFields(body) && (!MedicationFits(body) || Users.ById(s.users, user).None?)
    ensures r.response.status == 400 ==> r.state == s
    ensures r.response.status == 500 && !MedicationFits(body) ==> r.state == s
    ensures r.response.status == 500 && MedicationFits(body) ==> r.state == s.(medications := Burn(s.medications))
    ensures r.response.status == 201 ==>
      var row := Row(s.medications.nextId, user, now, now, StoredMedication(body));
      r.response == Response(201, MedicationJson(row))
      && r.state == s.(medications := Records.Insert(s.medications, user, StoredMedication(body), now).0)
      && GetOwned(r.state.medications, row.id, user) == Some(row)
      && (forall other :: other != row.id ==> Get(r.state.medications, other) == Get(s.medications, other))
      && (forall other :: other != user ==> Owned(r.state.medications, other) == Owned(s.medications, other))
  {
    if !HasRequiredMedicationFields(body) then Served(s, Response(400, ErrorBody(MissingFieldsError)))
    else if !MedicationFits(body) then Served(s, Response(500, ErrorBody(InternalError)))
    else if Users.ById(s.users, user).None? then
      Served(s.(medications := Burn(s.medications)), Response(500, ErrorBody(InternalError)))
    else
      var (t, row) := Records.Insert(s.medications, user, StoredMedication(body), now);
      MedicationsGrow(s, t);
      Served(s.(medications := t), Response(201, MedicationJson(row)))
  }

  /** Adding or rewriting medications keeps every reminder's medication. */
  lemma MedicationsGrow(s: State, t: Table<Medication>)
    requires RemindersReferToMedications(s)
    requires forall id :: Get(s.medications, id).Some? ==> Get(t, id).Some?
    ensures RemindersReferToMedications(s.(medications := t))
  {
  }

  /** `GET /api/medications/:id`: the row only when both the id and the
      owner match. */
  function GetMedication(t: Table<Medication>, id: int, user: int): (r: Response)
    ensures r.status == 200 <==> GetOwned(t, id, user).Some?
    ensures r.status == 200 ==> r.body == MedicationJson(GetOwned(t, id, user).value)
    ensures r.status != 200 ==> r == Response(404, ErrorBody(MedicationNotFoundError))
  {
    match GetOwned(t, id, user)
    case None => Response(404, ErrorBody(MedicationNotFoundError))
    case Some(row) => Response(200, MedicationJson(row))
  }

  /** `PUT /api/medications/:id`: no field is checked up front. An
      overflowing field makes the update throw while planning, whoever owns
      the row; otherwise no owned row gives 404, an owned row and an absent
      field make the update throw, and else every column is rewritten. */
  function UpdateMedication(s: State, id: int, user: int, body: MedicationBody, now: int): (r: Served)
    requires Valid(s)
    ensures Valid(r.state)
    ensures r.response.status == 200 || r.response.status == 404 || r.response.status == 500
    ensures r.response.status == 404 <==> MedicationWidthsFit(body) && GetOwned(s.medications, id, user).None?
    ensures r.response.status == 500 <==>
      !MedicationWidthsFit(body) || (GetOwned(s.medications, id, user).Some? && !MedicationFits(body))
    ensures r.response.status != 200 ==> r.state == s
    ensures r.response.status == 200 ==>
      var row := GetOwned(s.medications, id, user).value.(updatedAt := now, data := StoredMedication(body));
      r.response == Response(200, MedicationJson(row)) && Get(r.state.medications, id) == Some(row)
      && r.state == s.(medications := r.state.medications)
      && (forall other :: other != id ==> Get(r.state.medications, other) == Get(s.medications, other))
      && (forall other :: other != user ==> Owned(r.state.medications, other) == Owned(s.medications, other))
  {
    if !MedicationWidthsFit(body) then Served(s, Response(500, ErrorBody(InternalError)))
    else if GetOwned(s.medications, id, user).None? then Served(s, Response(404, ErrorBody(MedicationNotFoundError)))
    else if !MedicationFits(body) then Served(s, Response(500, ErrorBody(InternalError)))
    else
      var m := StoredMedication(body);
      match Records.Update(s.medications, id, user, _ => m, now)
      case (_, None) => Served(s, Response(404, ErrorBody(MedicationNotFoundError)))
      case (t, Some(row)) =>
        MedicationsGrow(s, t);
        Served(s.(medications := t), Response(200, MedicationJson(row)))
  }

  /** `DELETE /api/medications/:id`: the owned row goes, and with it,
      through the cascade, every reminder that names it, whoever owns the
      reminder. */
  function DeleteMedication(s: State, id: int, user: int): (r: Served)
    requires Valid(s)
    ensures Valid(r.state)
    ensures r.response.status == 404 <==> GetOwned(s.medications, id, user).None?
    ensures r.response.status == 404 ==> r == Served(s, Response(404, ErrorBody(MedicationNotFoundError)))
    ensures r.response.status != 404 ==>
      && r.response == Response(200, JObj([("message", JStr(MedicationDeletedMessage))]))
      && r.state.users == s.users && r.state.goals == s.goals
      && Get(r.state.medications, id).None?
      && (forall other :: other != id ==> Get(r.state.medications, other) == Get(s.medications, other))
      && (forall other :: other != user ==> Owned(r.state.medications, other) == Owned(s.medications, other))
      && (forall rid :: Get(r.state.reminders, rid) ==
            if Get(s.reminders, rid).Some? && Get(s.reminders, rid).value.data.medicationId == id then None
            else Get(s.reminders, rid))
  {
    var (t, resp) := ServerCommon.DeleteMedication(s.medications, id, user);
    if resp.status == 404 then Served(s, resp)
    else
      var reminders := RemoveIf(s.reminders, (x: Row<Reminder>) => x.data.medicationId == id);
      Served(s.(medications := t, reminders := reminders), resp)
  }

  // ----------------------------------------------------------- reminders

  function DaysJson(days: Option<seq<int>>): Json {
    match days
    case None => JNull
    case Some(ds) => JArr(seq(|ds|, i requires 0 <= i < |ds| => JInt(ds[i])))
  }

  function FlagJson(b: Option<bool>): Json {
    match b
    case None => JNull
    case Some(v) => JBool(v)
  }

  function TimeJson(t: Option<int>): Json {
    match t
    case None => JNull
    case Some(n) => JInt(n)
  }

  function ReminderColumns(r: Row<Reminder>): seq<(string, Json)> {
    [("id", JInt(r.id)), ("user_id", JInt(r.userId)), ("medication_id", JInt(r.data.medicationId)),
     ("reminder_time", JStr(r.data.reminderTime)), ("days_of_week", DaysJson(r.data.daysOfWeek)),
     ("is_active", FlagJson(r.data.isActive)), ("last_taken", TimeJson(r.data.lastTaken)),
     ("created_at", JInt(r.createdAt)), ("updated_at", JInt(r.updatedAt))]
  }

  /** A `reminders` row as `RETURNING *` gives it. */
  function ReminderJson(r: Row<Reminder>): Json {
    JObj(ReminderColumns(r))
  }

  /** `SELECT r.*, m.name AS medication_name FROM reminders r JOIN
      medications m ON r.medication_id = m.id WHERE r.user_id = ? ORDER BY
      r.created_at DESC`: an inner join, so a reminder whose medication is
      missing is left out. */
  function JoinedReminders(s: State, rows: seq<Row<Reminder>>): (r: seq<Json>)
    ensures |r| <= |rows|
  {
    if rows == [] then []
    else
      var rest := JoinedReminders(s, rows[1..]);
      match Get(s.medications, rows[0].data.medicationId)
      case None => rest
      case Some(m) => [JObj(ReminderColumns(rows[0]) + [("medication_name", JStr(m.data.name))])] + rest
  }

  /** With the foreign key in force the join drops nothing: one entry per
      listed reminder, carrying its medication's name. */
  lemma {:induction false} JoinKeepsAll(s: State, rows: seq<Row<Reminder>>)
    requires forall i :: 0 <= i < |rows| ==> Get(s.medications, rows[i].data.medicationId).Some?
    ensures |JoinedReminders(s, rows)| == |rows|
    ensures forall i :: 0 <= i < |rows| ==>
      JoinedReminders(s, rows)[i] ==
        JObj(ReminderColumns(rows[i]) + [("medication_name", JStr(Get(s.medications, rows[i].data.medicationId).value.data.name))])
  {
    if rows != [] {
      JoinKeepsAll(s, rows[1..]);
      assert forall i :: 1 <= i < |rows| ==> rows[i] == rows[1..][i - 1];
    }
  }

  /** Every reminder a user lists names an existing medication. */
  lemma ListedRemindersResolve(s: State, user: int)
    requires Valid(s)
    ensures forall i :: 0 <= i < |List(s.reminders, user)| ==>
      Get(s.medications, List(s.reminders, user)[i].data.medicationId).Some?
  {
    var rows := List(s.reminders, user);
    ListMembers(s.reminders, user);
    forall i | 0 <= i < |rows|
      ensures Get(s.medications, rows[i].data.medicationId).Some?
    {
      assert rows[i] in rows;
    }
  }

  /** `GET /api/reminders`. */
  function ListReminders(s: State, user: int): (r: Response)
    requires Valid(s)
    ensures r.status == 200 && r.body.JArr?
    ensures |r.body.items| == |List(s.reminders, user)|
    ensures forall i :: 0 <= i < |List(s.reminders, user)| ==>
      var row := List(s.reminders, user)[i];
      && Get(s.medications, row.data.medicationId).Some?
      && r.body.items[i] ==
           JObj(ReminderColumns(row) + [("medication_name", JStr(Get(s.medications, row.data.medicationId).value.data.name))])
  {
    var rows := List(s.reminders, user);
    ListedRemindersResolve(s, user);
    JoinKeepsAll(s, rows);
    Response(200, JArr(JoinedReminders(s, rows)))
  }

  /** `medication_id` is truthy: present and not 0. */
  predicate TruthyId(v: Option<int>) {
    v.Some? && v.value != 0
  }

  /** The columns a new reminder gets: `days_of_week` falls back to every
      day, `is_active` to `true`. */
  function NewReminder(body: ReminderBody): (d: Reminder)
    requires body.medicationId.Some? && body.reminderTime.Some?
    ensures d.medicationId == body.medicationId.value && d.reminderTime == body.reminderTime.value
    ensures d.daysOfWeek == Some(if body.daysOfWeek.Some? then body.daysOfWeek.value else EveryDay)
    ensures d.isActive == Some(true) && d.lastTaken.None?
  {
    Reminder(body.medicationId.value, body.reminderTime.value, Some(body.daysOfWeek.GetOr(EveryDay)), Some(true), None)
  }

  /** `POST /api/reminders`: `medication_id` and `reminder_time` are
      required. The insert throws, using up its id, when the caller is not
      a user or the medication does not exist. The medication may belong to
      anybody. */
  function CreateReminder(s: State, user: int, body: ReminderBody, now: int): (r: Served)
    requires Valid(s)
    ensures Valid(r.state)
    ensures r.response.status == 201 || r.response.status == 400 || r.response.status == 500
    ensures r.response.status == 400 <==> !TruthyId(body.medicationId) || !Truthy(body.reminderTime)
    ensures r.response.status == 500 <==>
      TruthyId(body.medicationId) && Truthy(body.reminderTime)
      && (Users.ById(s.users, user).None? || Get(s.medications, body.medicationId.value).None?)
    ensures r.response.status == 400 ==> r.state == s
    ensures r.response.status == 500 ==> r.state == s.(reminders := Burn(s.reminders))
    ensures r.response.status == 201 ==>
      var row := Row(s.reminders.nextId, user, now, now, NewReminder(body));
      r.response == Response(201, ReminderJson(row))
      && r.state == s.(reminders := Records.Insert(s.reminders, user, NewReminder(body), now).0)
      && GetOwned(r.state.reminders, row.id, user) == Some(row)
      && (forall other :: other != row.id ==> Get(r.state.reminders, other) == Get(s.reminders, other))
      && (forall other :: other != user ==> Owned(r.state.reminders, other) == Owned(s.reminders, other))
  {
    if !TruthyId(body.medicationId) || !Truthy(body.reminderTime) then
      Served(s, Response(400, ErrorBody(MissingFieldsError)))
    else if Users.ById(s.users, user).None? || Get(s.medications, body.medicationId.value).None? then
      Served(s.(reminders := Burn(s.reminders)), Response(500, ErrorBody(InternalError)))
    else
      var (t, row) := Records.Insert(s.reminders, user, NewReminder(body), now);
      Served(s.(reminders := t), Response(201, ReminderJson(row)))
  }

  /** As written, a user can attach a reminder to another user's
      medication, and that user's delete of the medication then takes the
      reminder with it through the cascade. */
  lemma CrossUserCascade(s: State, owner: int, other: int, medId: int, body: ReminderBody, now: int)
    requires Valid(s) && owner != other
    requires GetOwned(s.medications, medId, owner).Some? && Users.ById(s.users, other).Some?
    requires body.medicationId == Some(medId) && medId != 0 && Truthy(body.reminderTime)
    ensures var c := CreateReminder(s, other, body, now);
      && c.response.status == 201
      && GetOwned(c.state.reminders, s.reminders.nextId, other).Some?
      && var d := DeleteMedication(c.state, medId, owner);
         && d.response.status == 200
         && Get(d.state.reminders, s.reminders.nextId).None?
         && Owned(d.state.reminders, other) != Owned(c.state.reminders, other)
  {
    var c := CreateReminder(s, other, body, now);
    var row := c.state.reminders.rows[s.reminders.nextId];
    var d := DeleteMedication(c.state, medId, owner);
    OwnedMembers(c.state.reminders, other);
    OwnedMembers(d.state.reminders, other);
    assert row in Owned(c.state.reminders, other);
    assert row !in Owned(d.state.reminders, other);
  }

  /** Every reminder names a medication of its own owner. */
  predicate RemindersOwnTheirMedications(s: State) {
    forall id :: id in s.reminders.rows ==>
      GetOwned(s.medications, s.reminders.rows[id].data.medicationId, s.reminders.rows[id].userId).Some?
  }

  /** `POST /api/reminders` as evidently intended: the medication must be
      one of the caller's, as for `GET /api/medications/:id`; any other is
      not found, and nothing is inserted. Every reminder then names a
      medication of its own owner. */
  function CreateOwnReminder(s: State, user: int, body: ReminderBody, now: int): (r: Served)
    requires Valid(s)
    ensures Valid(r.state)
    ensures r.response.status == 201 || r.response.status == 400 || r.response.status == 404 || r.response.status == 500
    ensures r.response.status == 400 <==> !TruthyId(body.medicationId) || !Truthy(body.reminderTime)
    ensures r.response.status == 404 <==>
      TruthyId(body.medicationId) && Truthy(body.reminderTime)
      && GetOwned(s.medications, body.medicationId.value, user).None?
    ensures r.response.status == 400 || r.response.status == 404 ==> r.state == s
    ensures r.response.status == 201 ==>
      r == CreateReminder(s, user, body, now) && GetOwned(s.medications, body.medicationId.value, user).Some?
    ensures RemindersOwnTheirMedications(s) ==> RemindersOwnTheirMedications(r.state)
  {
    if !TruthyId(body.medicationId) || !Truthy(body.reminderTime) then
      Served(s, Response(400, ErrorBody(MissingFieldsError)))
    else if GetOwned(s.medications, body.medicationId.value, user).None? then
      Served(s, Response(404, ErrorBody(MedicationNotFoundError)))
    else
      CreateReminder(s, user, body, now)
  }

  /** With every reminder naming its owner's medication, deleting a
      medication leaves every other user's reminders as they were. */
  lemma {:induction false} OwnRemindersStayHome(s: State, id: int, user: int, other: int)
    requires Valid(s) && RemindersOwnTheirMedications(s) && other != user
    ensures Owned(DeleteMedication(s, id, user).state.reminders, other) == Owned(s.reminders, other)
  {
    var r := DeleteMedication(s, id, user).state;
    if r != s {
      forall rid: nat | rid < s.reminders.nextId && OwnedAt(s.reminders.rows, rid, other)
        ensures Get(r.reminders, rid) == Get(s.reminders, rid)
      {
        var row := s.reminders.rows[rid];
        assert GetOwned(s.medications, row.data.medicationId, other).Some?;
      }
      CollectAgree(r.reminders.rows, s.reminders.rows, other, s.reminders.nextId);
    }
  }

  /** `PUT /api/reminders/:id`: no owned row gives 404; an owned row and
      no `reminder_time` make the update throw (`NOT NULL`); otherwise
      the time, the days and the active flag are written as sent, absent
      ones as NULL. */
  function UpdateReminder(s: State, id: int, user: int, body: ReminderBody, now: int): (r: Served)
    requires Valid(s)
    ensures Valid(r.state)
    ensures r.response.status == 200 || r.response.status == 404 || r.response.status == 500
    ensures r.response.status == 404 <==> GetOwned(s.reminders, id, user).None?
    ensures r.response.status == 500 <==> GetOwned(s.reminders, id, user).Some? && body.reminderTime.None?
    ensures r.response.status != 200 ==> r.state == s
    ensures r.response.status == 200 ==>
      var prev := GetOwned(s.reminders, id, user).value;
      var row := prev.(updatedAt := now, data := prev.data.(reminderTime := body.reminderTime.value,
                                                            daysOfWeek := body.daysOfWeek, isActive := body.isActive));
      r.response == Response(200, ReminderJson(row)) && Get(r.state.reminders, id) == Some(row)
      && r.state == s.(reminders := r.state.reminders)
      && (forall other :: other != id ==> Get(r.state.reminders, other) == Get(s.reminders, other))
      && (forall other :: other != user ==> Owned(r.state.reminders, other) == Owned(s.reminders, other))
  {
    if GetOwned(s.reminders, id, user).None? then Served(s, Response(404, ErrorBody(ReminderNotFoundError)))
    else if body.reminderTime.None? then Served(s, Response(500, ErrorBody(InternalError)))
    else
      var edit := (d: Reminder) => d.(reminderTime := body.reminderTime.value,
                                      daysOfWeek := body.daysOfWeek, isActive := body.isActive);
      match Records.Update(s.reminders, id, user, edit, now)
      case (_, None) => Served(s, Response(404, ErrorBody(ReminderNotFoundError)))
      case (t, Some(row)) => Served(s.(reminders := t), Response(200, ReminderJson(row)))
  }

  /** `DELETE /api/reminders/:id`. */
  function DeleteReminder(s: State, id: int, user: int): (r: Served)
    requires Valid(s)
    ensures Valid(r.state)
    ensures r.response.status == 404 <==> GetOwned(s.reminders, id, user).None?
    ensures r.response.status == 404 ==> r == Served(s, Response(404, ErrorBody(ReminderNotFoundError)))
    ensures r.response.status != 404 ==>
      r.response == Response(200, JObj([("message", JStr(ReminderDeletedMessage))]))
      && Get(r.state.reminders, id).None?
      && r.state == s.(reminders := r.state.reminders)
      && (forall other :: other != id ==> Get(r.state.reminders, other) == Get(s.reminders, other))
      && (forall other :: other != user ==> Owned(r.state.reminders, other) == Owned(s.reminders, other))
  {
    var (t, deleted) := Delete(s.reminders, id, user);
    if !deleted then Served(s, Response(404, ErrorBody(ReminderNotFoundError)))
    else Served(s.(reminders := t), Response(200, JObj([("message", JStr(ReminderDeletedMessage))])))
  }

  // --------------------------------------------------------------- goals

  function GoalJson(r: Row<Goal>): Json {
    JObj([("id", JInt(r.id)), ("user_id", JInt(r.userId)), ("title", JStr(r.data.title)),
          ("description", Nullable(r.data.description)), ("deadline", Nullable(r.data.deadline)),
          ("is_completed", FlagJson(r.data.isCompleted)), ("completed_at", TimeJson(r.data.completedAt)),
          ("created_at", JInt(r.createdAt)), ("updated_at", JInt(r.updatedAt))])
  }

  /** `POST /api/goals`: `title` is required and `deadline` is read under
      that name. The insert throws while planning, with no id drawn, for a
      title that does not fit `VARCHAR(200)`, and while running, using up
      its id, for an unknown user; a fitting title is stored cut to 200
      characters. */
  function CreateGoal(s: State, user: int, body: GoalBody, now: int): (r: Served)
    requires Valid(s)
    ensures Valid(r.state)
    ensures r.response.status == 201 || r.response.status == 400 || r.response.status == 500
    ensures r.response.status == 400 <==> !Truthy(body.title)
    ensures r.response.status == 500 <==>
      Truthy(body.title) && (!Fits(body.title, 200) || Users.ById(s.users, user).None?)
    ensures r.response.status == 400 ==> r.state == s
    ensures r.response.status == 500 && !Fits(body.title, 200) ==> r.state == s
    ensures r.response.status == 500 && Fits(body.title, 200) ==> r.state == s.(goals := Burn(s.goals))
    ensures r.response.status == 201 ==>
      var data := Goal(Cut(body.title, 200).value, body.description, body.deadline, Some(false), None);
      var row := Row(s.goals.nextId, user, now, now, data);
      r.response == Response(201, GoalJson(row))
      && r.state == s.(goals := Records.Insert(s.goals, user, data, now).0)
      && GetOwned(r.state.goals, row.id, user) == Some(row)
      && (forall other :: other != row.id ==> Get(r.state.goals, other) == Get(s.goals, other))
      && (forall other :: other != user ==> Owned(r.state.goals, other) == Owned(s.goals, other))
  {
    if !Truthy(body.title) then Served(s, Response(400, ErrorBody(TitleRequiredError)))
    else if !Fits(body.title, 200) then Served(s, Response(500, ErrorBody(InternalError)))
    else if Users.ById(s.users, user).None? then
      Served(s.(goals := Burn(s.goals)), Response(500, ErrorBody(InternalError)))
    else
      var data := Goal(Cut(body.title, 200).value, body.description, body.deadline, Some(false), None);
      var (t, row) := Records.Insert(s.goals, user, data, now);
      Served(s.(goals := t), Response(201, GoalJson(row)))
  }

  /** The columns the goal update writes: `completed_at` becomes the time
      of the update when `is_completed` is `true`, and otherwise keeps
      what it held. */
  function EditGoal(body: GoalBody, now: int, g: Goal): (r: Goal)
    requires body.title.Some?
    ensures Some(r.title) == Cut(body.title, 200) && r.description == body.description && r.deadline == body.deadline
    ensures r.isCompleted == body.isCompleted
    ensures body.isCompleted == Some(true) ==> r.completedAt == Some(now)
    ensures body.isCompleted != Some(true) ==> r.completedAt == g.completedAt
  {
    Goal(Cut(body.title, 200).value, body.description, body.deadline, body.isCompleted,
         if body.isCompleted == Some(true) then Some(now) else g.completedAt)
  }

  /** `PUT /api/goals/:id`: an overflowing title makes the update throw
      while planning, whoever owns the row; otherwise no owned row gives
      404, and an owned row and an absent title make the update throw. */
  function UpdateGoal(s: State, id: int, user: int, body: GoalBody, now: int): (r: Served)
    requires Valid(s)
    ensures Valid(r.state)
    ensures r.response.status == 200 || r.response.status == 404 || r.response.status == 500
    ensures r.response.status == 404 <==> Fits(body.title, 200) && GetOwned(s.goals, id, user).None?
    ensures r.response.status == 500 <==>
      !Fits(body.title, 200) || (GetOwned(s.goals, id, user).Some? && body.title.None?)
    ensures r.response.status != 200 ==> r.state == s
    ensures r.response.status == 200 ==>
      var prev := GetOwned(s.goals, id, user).value;
      var row := prev.(updatedAt := now, data := EditGoal(body, now, prev.data));
      r.response == Response(200, GoalJson(row)) && Get(r.state.goals, id) == Some(row)
      && r.state == s.(goals := r.state.goals)
      && (forall other :: other != id ==> Get(r.state.goals, other) == Get(s.goals, other))
      && (forall other :: other != user ==> Owned(r.state.goals, other) == Owned(s.goals, other))
  {
    if !Fits(body.title, 200) then Served(s, Response(500, ErrorBody(InternalError)))
    else if GetOwned(s.goals, id, user).None? then Served(s, Response(404, ErrorBody(GoalNotFoundError)))
    else if body.title.None? then Served(s, Response(500, ErrorBody(InternalError)))
    else
      match Records.Update(s.goals, id, user, g => EditGoal(body, now, g), now)
      case (_, None) => Served(s, Response(404, ErrorBody(GoalNotFoundError)))
      case (t, Some(row)) => Served(s.(goals := t), Response(200, GoalJson(row)))
  }

  /** Un-completing a goal keeps the completion time it had. */
  lemma UncompleteKeepsCompletedAt(s: State, id: int, user: int, body: GoalBody, now: int)
    requires Valid(s) && body.isCompleted == Some(false)
    requires UpdateGoal(s, id, user, body, now).response.status == 200
    ensures Get(UpdateGoal(s, id, user, body, now).state.goals, id).value.data.completedAt
         == Get(s.goals, id).value.data.completedAt
  {
  }

  /** `DELETE /api/goals/:id`. */
  function DeleteGoal(s: State, id: int, user: int): (r: Served)
    requires Valid(s)
    ensures Valid(r.state)
    ensures r.response.status == 404 <==> GetOwned(s.goals, id, user).None?
    ensures r.response.status == 404 ==> r == Served(s, Response(404, ErrorBody(GoalNotFoundError)))
    ensures r.response.status != 404 ==>
      r.response == Response(200, JObj([("message", JStr(GoalDeletedMessage))])) && Get(r.state.goals, id).None?
      && r.state == s.(goals := r.state.goals)
      && (forall other :: other != id ==> Get(r.state.goals, other) == Get(s.goals, other))
      && (forall other :: other != user ==> Owned(r.state.goals, other) == Owned(s.goals, other))
  {
    var (t, deleted) := Delete(s.goals, id, user);
    if !deleted then Served(s, Response(404, ErrorBody(GoalNotFoundError)))
    else Served(s.(goals := t), Response(200, JObj([("message", JStr(GoalDeletedMessage))])))
  }

  // ------------------------------------------------------------ dispatch

  datatype Request =
    | RegisterUser(credentials: Credentials)
    | LoginUser(credentials: Credentials)
    | ListMedicationsOf
    | GetMedicationOf(id: int)
    | CreateMedicationOf(medication: MedicationBody)
    | UpdateMedicationOf(id: int, medication: MedicationBody)
    | DeleteMedicationOf(id: int)
    | ListRemindersOf
    | CreateReminderOf(reminder: ReminderBody)
    | UpdateReminderOf(id: int, reminder: ReminderBody)
    | DeleteReminderOf(id: int)
    | ListGoalsOf
    | CreateGoalOf(goal: GoalBody)
    | UpdateGoalOf(id: int, goal: GoalBody)
    | DeleteGoalOf(id: int)

  predicate Open(req: Request) {
    req.RegisterUser? || req.LoginUser?
  }

  /** The handler of an authenticated endpoint, acting for `user`. */
  function Handle(s: State, req: Request, user: int, now: int): (r: Served)
    requires Valid(s) && !Open(req)
    ensures Valid(r.state)
    ensures r.state.users == s.users
  {
    match req
    case ListMedicationsOf => Served(s, ListOwned(s.medications, user, MedicationJson))
    case GetMedicationOf(id) => Served(s, GetMedication(s.medications, id, user))
    case CreateMedicationOf(b) => CreateMedication(s, user, b, now)
    case UpdateMedicationOf(id, b) => UpdateMedication(s, id, user, b, now)
    case DeleteMedicationOf(id) => DeleteMedication(s, id, user)
    case ListRemindersOf => Served(s, ListReminders(s, user))
    case CreateReminderOf(b) => CreateReminder(s, user, b, now)
    case UpdateReminderOf(id, b) => UpdateReminder(s, id, user, b, now)
    case DeleteReminderOf(id) => DeleteReminder(s, id, user)
    case ListGoalsOf => Served(s, ListOwned(s.goals, user, GoalJson))
    case CreateGoalOf(b) => CreateGoal(s, user, b, now)
    case UpdateGoalOf(id, b) => UpdateGoal(s, id, user, b, now)
    case DeleteGoalOf(id) => DeleteGoal(s, id, user)
  }

  /** The reminders another user keeps after a medication delete: those
      that did not name the medication. */
  lemma {:induction false} CascadeOfOthers(s: State, id: int, user: int, other: int)
    requires Valid(s)
    ensures var r := DeleteMedication(s, id, user);
      forall x :: x in Owned(r.state.reminders, other) <==>
        x in Owned(s.reminders, other) && (x.data.medicationId != id || r.response.status == 404)
  {
    var r := DeleteMedication(s, id, user).state;
    OwnedMembers(r.reminders, other);
    OwnedMembers(s.reminders, other);
    forall x | x in Owned(s.reminders, other) || x in Owned(r.reminders, other)
      ensures x in Owned(r.reminders, other) <==>
        x in Owned(s.reminders, other) && (x.data.medicationId != id || r == s)
    {
      assert Get(s.reminders, x.id) == Some(x) || Get(r.reminders, x.id) == Some(x);
    }
  }

  /** Whatever one user does, another user's medications and goals stay as
      they were. */
  lemma OtherUsersUntouched(s: State, req: Request, user: int, now: int, other: int)
    requires Valid(s) && !Open(req) && other != user
    ensures var r := Handle(s, req, user, now);
      && Owned(r.state.medications, other) == Owned(s.medications, other)
      && Owned(r.state.goals, other) == Owned(s.goals, other)
  {
  }

  /** Whatever one user does, another user's reminders stay as they were,
      except those the cascade of a deleted medication takes: reminders
      another user attached to it. */
  lemma OtherUsersRemindersUntouched(s: State, req: Request, user: int, now: int, other: int)
    requires Valid(s) && !Open(req) && other != user
    ensures var r := Handle(s, req, user, now);
      && (!req.DeleteMedicationOf? ==> Owned(r.state.reminders, other) == Owned(s.reminders, other))
      && (req.DeleteMedicationOf? ==>
            forall x :: x in Owned(r.state.reminders, other) <==>
              x in Owned(s.reminders, other) && (x.data.medicationId != req.id || r.response.status == 404))
  {
    match req
    case DeleteMedicationOf(id) => CascadeOfOthers(s, id, user, other);
    case _ =>
  }

  /** One request against the server. */
  function Serve(s: State, req: Request, header: Option<string>, bcrypt: Bcrypt, jwt: Jwt, now: int): (r: Served)
    requires Valid(s)
    ensures Valid(r.state)
    ensures !Open(req) && ServerAuthenticateToken(header, jwt).Halt? ==>
      r == Served(s, ServerAuthenticateToken(header, jwt).response)
    ensures req.LoginUser? ==> r.state == s
  {
    match req
    case RegisterUser(c) =>
      var (users, resp) := Register(s.users, c, bcrypt, jwt, now);
      Served(s.(users := users), resp)
    case LoginUser(c) => Served(s, Login(s.users, c, bcrypt, jwt))
    case _ =>
      match ServerAuthenticateToken(header, jwt)
      case Halt(resp) => Served(s, resp)
      case Next(claims) => Handle(s, req, claims.userId, now)
  }
}
