/** An ownership-scoped record table, the shape shared by the
    `medications`, `reminders` and `goals` tables of both stand-alone
    servers: an auto-increment id, the owning `user_id`, the two
    timestamps, and the table-specific columns `D`. Ids are never reused,
    as with SQLite `AUTOINCREMENT` and PostgreSQL `SERIAL`. Every
    statement the handlers run is one of the functions below. */
module Records {
  import opened Wrappers

  datatype Row<D> = Row(id: nat, userId: int, createdAt: int, updatedAt: int, data: D)

  /** The rows by id, and the id the next insert receives. */
  datatype Table<D> = Table(rows: map<nat, Row<D>>, nextId: nat)

  /** Each row sits under its own id, and every id is below the next one. */
  predicate Valid<D>(t: Table<D>) {
    forall id :: id in t.rows ==> t.rows[id].id == id && id < t.nextId
  }

  function Empty<D>(): (t: Table<D>)
    ensures Valid(t) && t.rows == map[]
  {
    Table(map[], 1)
  }

  /** `SELECT * FROM t WHERE id = ?` */
  function Get<D>(t: Table<D>, id: int): (r: Option<Row<D>>)
    ensures r.Some? <==> id >= 0 && id in t.rows
    ensures r.Some? ==> r.value == t.rows[id]
  {
    if id >= 0 && id in t.rows then Some(t.rows[id]) else None
  }

  /** `... WHERE id = ? AND user_id = ?`: the one row both match, if any. */
  function GetOwned<D>(t: Table<D>, id: int, user: int): (r: Option<Row<D>>)
    ensures r.Some? <==> Get(t, id).Some? && Get(t, id).value.userId == user
    ensures r.Some? ==> r == Get(t, id)
  {
    match Get(t, id)
    case Some(row) => if row.userId == user then Some(row) else None
    case None => None
  }

  /** Whether the row under `id` belongs to `user`. */
  predicate OwnedAt<D>(rows: map<nat, Row<D>>, id: nat, user: int) {
    id in rows && rows[id].userId == user
  }

  /** The rows of `user` with an id below `hi`, in id order. */
  function Collect<D>(rows: map<nat, Row<D>>, user: int, hi: nat): (r: seq<Row<D>>)
    ensures |r| <= hi
  {
    if hi == 0 then []
    else Collect(rows, user, hi - 1) + (if OwnedAt(rows, hi - 1, user) then [rows[hi - 1]] else [])
  }

  /** The rows of `user`, in id order. */
  function Owned<D>(t: Table<D>, user: int): seq<Row<D>> {
    Collect(t.rows, user, t.nextId)
  }

  /** `Collect` keeps exactly the rows of `user` below `hi`. */
  lemma {:induction false} CollectMembers<D>(rows: map<nat, Row<D>>, user: int, hi: nat)
    requires forall id :: id in rows ==> rows[id].id == id
    ensures forall x :: x in Collect(rows, user, hi) <==> x.id < hi && OwnedAt(rows, x.id, user) && rows[x.id] == x
  {
    if hi > 0 {
      CollectMembers(rows, user, hi - 1);
    }
  }

  /** Two maps that agree on which ids below `hi` belong to `user`, and on
      those rows, collect the same rows for `user`. */
  lemma {:induction false} CollectAgree<D>(a: map<nat, Row<D>>, b: map<nat, Row<D>>, user: int, hi: nat)
    requires forall id: nat :: id < hi ==> (OwnedAt(a, id, user) <==> OwnedAt(b, id, user))
    requires forall id: nat :: id < hi && OwnedAt(a, id, user) && id in b ==> a[id] == b[id]
    ensures Collect(a, user, hi) == Collect(b, user, hi)
  {
    if hi > 0 {
      CollectAgree(a, b, user, hi - 1);
    }
  }

  /** What `Owned` holds: every row of `user` and nothing else. */
  lemma OwnedMembers<D>(t: Table<D>, user: int)
    requires Valid(t)
    ensures forall x :: x in Owned(t, user) <==> x.id in t.rows && t.rows[x.id] == x && x.userId == user
  {
    CollectMembers(t.rows, user, t.nextId);
  }

  /** Newest first: `ORDER BY created_at DESC`. */
  predicate NewestFirst<D>(s: seq<Row<D>>) {
    forall i, j :: 0 <= i < j < |s| ==> s[i].createdAt >= s[j].createdAt
  }

  /** Puts `x` in front of the first row that is not newer than it. */
  function InsertByDate<D>(x: Row<D>, s: seq<Row<D>>): (r: seq<Row<D>>)
    ensures |r| == |s| + 1
    ensures r[0] == x || (s != [] && r[0] == s[0])
    ensures multiset(r) == multiset(s) + multiset{x}
  {
    if s == [] then [x]
    else if x.createdAt >= s[0].createdAt then [x] + s
    else
      assert s == [s[0]] + s[1..];
      [s[0]] + InsertByDate(x, s[1..])
  }

  /** Inserting into a newest-first sequence keeps it newest first. */
  lemma {:induction false} InsertByDateSorted<D>(x: Row<D>, s: seq<Row<D>>)
    requires NewestFirst(s)
    ensures NewestFirst(InsertByDate(x, s))
  {
    if s != [] && x.createdAt < s[0].createdAt {
      var tail := InsertByDate(x, s[1..]);
      InsertByDateSorted(x, s[1..]);
      assert s[0].createdAt >= tail[0].createdAt;
      assert forall j :: 0 <= j < |tail| ==> tail[0].createdAt >= tail[j].createdAt;
    }
  }

  /** Insertion sort by `created_at`, newest first. */
  function SortNewestFirst<D>(s: seq<Row<D>>): (r: seq<Row<D>>)
    ensures NewestFirst(r)
    ensures multiset(r) == multiset(s)
  {
    if s == [] then []
    else
      assert s == [s[0]] + s[1..];
      var rest := SortNewestFirst(s[1..]);
      InsertByDateSorted(s[0], rest);
      InsertByDate(s[0], rest)
  }

  /** `SELECT * FROM t WHERE user_id = ? ORDER BY created_at DESC`: the
      caller's rows, each once, newest first. */
  function List<D>(t: Table<D>, user: int): (r: seq<Row<D>>)
    ensures NewestFirst(r)
    ensures multiset(r) == multiset(Owned(t, user))
  {
    SortNewestFirst(Owned(t, user))
  }

  /** What a listing holds: every row of the caller and nothing else. */
  lemma ListMembers<D>(t: Table<D>, user: int)
    requires Valid(t)
    ensures forall x :: x in List(t, user) <==> x.id in t.rows && t.rows[x.id] == x && x.userId == user
  {
    OwnedMembers(t, user);
    assert forall x :: x in List(t, user) <==> x in multiset(Owned(t, user));
  }

  /** `INSERT INTO t (user_id, ...) VALUES (?, ...)`: a new row under the
      next id, both timestamps `now`. */
  function Insert<D>(t: Table<D>, user: int, data: D, now: int): (r: (Table<D>, Row<D>))
    requires Valid(t)
    ensures Valid(r.0)
    ensures r.1 == Row(t.nextId, user, now, now, data)
    ensures Get(t, r.1.id).None?
    ensures GetOwned(r.0, r.1.id, user) == Some(r.1)
    ensures forall id :: id != r.1.id ==> Get(r.0, id) == Get(t, id)
    ensures forall other :: other != user ==> Owned(r.0, other) == Owned(t, other)
    ensures Owned(r.0, user) == Owned(t, user) + [r.1]
  {
    var row := Row(t.nextId, user, now, now, data);
    var t' := Table(t.rows[t.nextId := row], t.nextId + 1);
    InsertKeepsOthers(t, t', user);
    (t', row)
  }

  /** A failed PostgreSQL `INSERT`: `nextval` of the `SERIAL` column is
      not rolled back, so the id it drew is never given to a row. No row
      changes, and the next insert gets the id after it. */
  function Burn<D>(t: Table<D>): (r: Table<D>)
    requires Valid(t)
    ensures Valid(r)
    ensures r.nextId == t.nextId + 1
    ensures forall id :: Get(r, id) == Get(t, id)
    ensures forall user :: Owned(r, user) == Owned(t, user)
  {
    Table(t.rows, t.nextId + 1)
  }

  /** The listing after an insert: one more row for its owner, none for
      anybody else. */
  lemma InsertKeepsOthers<D>(t: Table<D>, t': Table<D>, user: int)
    requires Valid(t)
    requires t'.nextId == t.nextId + 1 && t.nextId in t'.rows
    requires t'.rows == t.rows[t.nextId := t'.rows[t.nextId]]
    requires t'.rows[t.nextId].userId == user
    ensures forall other :: other != user ==> Owned(t', other) == Owned(t, other)
    ensures Owned(t', user) == Owned(t, user) + [t'.rows[t.nextId]]
  {
    forall other
      ensures Collect(t'.rows, other, t.nextId) == Owned(t, other)
    {
      CollectAgree(t'.rows, t.rows, other, t.nextId);
    }
  }

  /** `UPDATE t SET ..., updated_at = CURRENT_TIMESTAMP WHERE id = ? AND
      user_id = ?`: `edit` gives the new columns from the old ones. The
      second component is the updated row, or `None` when no row changed. */
  function Update<D>(t: Table<D>, id: int, user: int, edit: D -> D, now: int): (r: (Table<D>, Option<Row<D>>))
    requires Valid(t)
    ensures Valid(r.0)
    ensures r.1.None? <==> GetOwned(t, id, user).None?
    ensures r.1.None? ==> r.0 == t
    ensures r.1.Some? ==>
      var prev := GetOwned(t, id, user).value;
      r.1.value == prev.(updatedAt := now, data := edit(prev.data))
      && Get(r.0, id) == r.1
    ensures forall other :: other != id ==> Get(r.0, other) == Get(t, other)
    ensures forall other :: other != user ==> Owned(r.0, other) == Owned(t, other)
  {
    match GetOwned(t, id, user)
    case None => (t, None)
    case Some(prev) =>
      var row := prev.(updatedAt := now, data := edit(prev.data));
      var t' := Table(t.rows[prev.id := row], t.nextId);
      assert forall other :: other != user ==> Owned(t', other) == Owned(t, other) by {
        forall other | other != user
          ensures Owned(t', other) == Owned(t, other)
        {
          CollectAgree(t'.rows, t.rows, other, t.nextId);
        }
      }
      (t', Some(row))
  }

  /** `DELETE FROM t WHERE id = ? AND user_id = ?`; the flag says whether
      a row went. */
  function Delete<D>(t: Table<D>, id: int, user: int): (r: (Table<D>, bool))
    requires Valid(t)
    ensures Valid(r.0)
    ensures r.1 <==> GetOwned(t, id, user).Some?
    ensures !r.1 ==> r.0 == t
    ensures r.1 ==> Get(r.0, id).None?
    ensures forall other :: other != id ==> Get(r.0, other) == Get(t, other)
    ensures forall other :: other != user ==> Owned(r.0, other) == Owned(t, other)
  {
    match GetOwned(t, id, user)
    case None => (t, false)
    case Some(prev) =>
      var t' := Table(t.rows - {prev.id}, t.nextId);
      assert forall other :: other != user ==> Owned(t', other) == Owned(t, other) by {
        forall other | other != user
          ensures Owned(t', other) == Owned(t, other)
        {
          CollectAgree(t'.rows, t.rows, other, t.nextId);
        }
      }
      (t', true)
  }

  /** A `DELETE` reached through an `ON DELETE CASCADE` foreign key: every
      row `gone` picks goes, the others stay as they were. */
  function RemoveIf<D>(t: Table<D>, gone: Row<D> -> bool): (r: Table<D>)
    requires Valid(t)
    ensures Valid(r)
    ensures r.nextId == t.nextId
    ensures forall id :: id in r.rows <==> id in t.rows && !gone(t.rows[id])
    ensures forall id :: id in r.rows ==> r.rows[id] == t.rows[id]
  {
    Table(map id | id in t.rows && !gone(t.rows[id]) :: t.rows[id], t.nextId)
  }
}
