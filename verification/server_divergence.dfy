/** Where the SQLite server and the PostgreSQL server answer the same
    request differently, and where they agree. */
module ServerDivergence {
  import opened Wrappers
  import opened Http
  import opened Records
  import opened ServerCommon
  import SqliteServer
  import PgServer

  /** A medication update missing a required field: SQLite refuses it with
      400 before it looks at the table; PostgreSQL answers 500 when another
      field overflows or the caller owns the row (the `NOT NULL` violation),
      and 404 otherwise. Neither changes the table. */
  lemma MissingFieldOnUpdate(s: PgServer.State, id: int, user: int, body: MedicationBody, now: int)
    requires PgServer.Valid(s)
    requires body.name.None? || body.dose.None? || body.frequency.None? || body.time.None?
    ensures var lite := SqliteServer.UpdateMedication(s.medications, id, user, body, now);
      lite.1.status == 400 && lite.0 == s.medications
    ensures var pg := PgServer.UpdateMedication(s, id, user, body, now);
      pg.response.status ==
        (if !PgServer.MedicationWidthsFit(body) || GetOwned(s.medications, id, user).Some? then 500 else 404)
      && pg.state == s
  {
  }

  /** An empty required field: SQLite refuses it; PostgreSQL stores the
      empty text in the caller's row. */
  lemma EmptyFieldOnUpdate(s: PgServer.State, id: int, user: int, body: MedicationBody, now: int)
    requires PgServer.Valid(s)
    requires GetOwned(s.medications, id, user).Some?
    requires body.name == Some([]) && PgServer.MedicationFits(body)
    ensures SqliteServer.UpdateMedication(s.medications, id, user, body, now).1.status == 400
    ensures var pg := PgServer.UpdateMedication(s, id, user, body, now);
      pg.response.status == 200 && Get(pg.state.medications, id).value.data.name == []
  {
  }

  /** On a body both servers accept and PostgreSQL need not cut, the two
      medication updates give the same answer and leave the same table. */
  lemma {:induction false} UpdatesAgreeOnGoodBody(s: PgServer.State, id: int, user: int, body: MedicationBody, now: int)
    requires PgServer.Valid(s)
    requires HasRequiredMedicationFields(body) && PgServer.MedicationShort(body)
    ensures var lite := SqliteServer.UpdateMedication(s.medications, id, user, body, now);
      var pg := PgServer.UpdateMedication(s, id, user, body, now);
      lite.1 == pg.response && lite.0 == pg.state.medications
  {
    var m := PgServer.StoredMedication(body);
    var u := Records.Update(s.medications, id, user, _ => m, now);
    if GetOwned(s.medications, id, user).Some? {
      assert u.1.Some?;
    }
  }

  /** A medication name of 100 characters and a trailing space: SQLite
      stores it whole, PostgreSQL's `VARCHAR(100)` stores it without the
      space. */
  lemma TrailingSpaceCut(s: PgServer.State, id: int, user: int, body: MedicationBody, now: int)
    requires PgServer.Valid(s) && GetOwned(s.medications, id, user).Some?
    requires HasRequiredMedicationFields(body) && PgServer.MedicationFits(body)
    requires |body.name.value| == 101
    ensures var lite := SqliteServer.UpdateMedication(s.medications, id, user, body, now);
      lite.1.status == 200 && Get(lite.0, id).value.data.name == body.name.value
    ensures var pg := PgServer.UpdateMedication(s, id, user, body, now);
      && pg.response.status == 200
      && Get(pg.state.medications, id).value.data.name == body.name.value[..100]
      && body.name.value == body.name.value[..100] + " "
  {
    var name := body.name.value;
    assert name[100] == ' ';
    assert name == name[..100] + [name[100]];
  }

  /** Marking a completed goal as not completed: PostgreSQL keeps the old
      completion time, the SQLite update as written stores the text `NULL`,
      and the corrected SQLite update clears it. */
  lemma UncompleteDiverges(pg: PgServer.State, pgBody: PgServer.GoalBody,
                           lite: Table<SqliteServer.Goal>, liteBody: SqliteServer.GoalBody,
                           id: int, user: int, now: int)
    requires PgServer.Valid(pg) && Records.Valid(lite)
    requires pgBody.isCompleted == Some(false) && !liteBody.isCompleted
    requires PgServer.UpdateGoal(pg, id, user, pgBody, now).response.status == 200
    requires SqliteServer.UpdateGoal(lite, id, user, liteBody, now).1.status == 200
    ensures Get(PgServer.UpdateGoal(pg, id, user, pgBody, now).state.goals, id).value.data.completedAt
         == Get(pg.goals, id).value.data.completedAt
    ensures Get(SqliteServer.UpdateGoalAsWritten(lite, id, user, liteBody, now).0, id).value.data.completedAt
         == Some(SqliteServer.Literal("NULL"))
    ensures Get(SqliteServer.UpdateGoal(lite, id, user, liteBody, now).0, id).value.data.completedAt.None?
  {
    PgServer.UncompleteKeepsCompletedAt(pg, id, user, pgBody, now);
    SqliteServer.UpdateGoalsAgreeElsewhere(lite, id, user, liteBody, now);
  }
}
