/** The `users` table: `id INTEGER PRIMARY KEY AUTOINCREMENT`,
    `username TEXT UNIQUE NOT NULL`, `password_hash`, `email`,
    `created_at` and `updated_at`. Users are never deleted, so the row with
    id `i` is the `i`-th row inserted. Timestamps are the integers the clock
    gave when the statement ran. */
module Users {
  import opened Wrappers

  datatype User = User(
    id: nat, username: string, passwordHash: string, email: Option<string>,
    createdAt: int, updatedAt: int)

  datatype UserTable = UserTable(rows: seq<User>)

  /** Ids are handed out 1, 2, 3, ... and no two users share a name. */
  predicate Valid(t: UserTable) {
    && (forall i :: 0 <= i < |t.rows| ==> t.rows[i].id == i + 1)
    && (forall i, j :: 0 <= i < j < |t.rows| ==> t.rows[i].username != t.rows[j].username)
  }

  /** Position of the first row called `name`, or the row count. */
  function NameIndex(rows: seq<User>, name: string): (k: nat)
    ensures k <= |rows|
    ensures k < |rows| ==> rows[k].username == name
    ensures forall i :: 0 <= i < k ==> rows[i].username != name
  {
    if rows == [] || rows[0].username == name then 0 else 1 + NameIndex(rows[1..], name)
  }

  /** `SELECT ... FROM users WHERE username = ?` */
  function ByName(t: UserTable, name: string): (r: Option<User>)
    ensures r.Some? ==> r.value in t.rows && r.value.username == name
    ensures r.None? <==> forall u :: u in t.rows ==> u.username != name
  {
    var k := NameIndex(t.rows, name);
    if k < |t.rows| then Some(t.rows[k]) else None
  }

  /** `SELECT ... FROM users WHERE id = ?` */
  function ById(t: UserTable, id: int): (r: Option<User>)
    requires Valid(t)
    ensures r.Some? ==> r.value in t.rows && r.value.id == id
    ensures r.None? <==> forall u :: u in t.rows ==> u.id != id
  {
    if 1 <= id <= |t.rows| then Some(t.rows[id - 1]) else None
  }

  /** `INSERT INTO users ...` returning `lastID`; `None` is the UNIQUE
      constraint refusing a name that is already taken. */
  function Insert(t: UserTable, username: string, passwordHash: string, email: Option<string>, now: int)
    : (r: Option<(UserTable, nat)>)
    requires Valid(t)
    ensures r.None? <==> ByName(t, username).Some?
    ensures r.Some? ==> Valid(r.value.0)
    ensures r.Some? ==> r.value.1 == |t.rows| + 1
    ensures r.Some? ==>
      ById(r.value.0, r.value.1) == Some(User(r.value.1, username, passwordHash, email, now, now))
    ensures r.Some? ==> forall id :: id != r.value.1 ==> ById(r.value.0, id) == ById(t, id)
    ensures r.Some? ==> ByName(r.value.0, username) == ById(r.value.0, r.value.1)
  {
    if ByName(t, username).Some? then None
    else
      var id := |t.rows| + 1;
      var u := User(id, username, passwordHash, email, now, now);
      var t' := UserTable(t.rows + [u]);
      assert t'.rows[|t.rows|] == u;
      assert forall i :: 0 <= i < |t.rows| ==> t'.rows[i] == t.rows[i];
      assert NameIndex(t'.rows, username) == |t.rows|;
      Some((t', id))
  }

  /** `UPDATE users SET updated_at = CURRENT_TIMESTAMP WHERE id = ?` */
  function Touch(t: UserTable, id: int, now: int): (r: UserTable)
    requires Valid(t)
    ensures Valid(r)
    ensures |r.rows| == |t.rows|
    ensures ById(t, id).Some? ==> ById(r, id) == Some(ById(t, id).value.(updatedAt := now))
    ensures forall other :: other != id ==> ById(r, other) == ById(t, other)
    ensures forall name :: ByName(r, name).Some? <==> ByName(t, name).Some?
  {
    if 1 <= id <= |t.rows| then
      var r := UserTable(t.rows[id - 1 := t.rows[id - 1].(updatedAt := now)]);
      assert forall name :: NameIndex(r.rows, name) == NameIndex(t.rows, name) by {
        forall name ensures NameIndex(r.rows, name) == NameIndex(t.rows, name) {
          SameNamesSameIndex(r.rows, t.rows, name);
        }
      }
      r
    else t
  }

  /** Two tables whose rows carry the same names in the same order find a
      name at the same position. */
  lemma {:induction false} SameNamesSameIndex(a: seq<User>, b: seq<User>, name: string)
    requires |a| == |b|
    requires forall i :: 0 <= i < |a| ==> a[i].username == b[i].username
    ensures NameIndex(a, name) == NameIndex(b, name)
  {
    if a != [] && a[0].username != name {
      SameNamesSameIndex(a[1..], b[1..], name);
    }
  }
}
