/** JSON values as the handlers send them, and the HTTP response and
    middleware step that carry them. */
module Http {
  import opened Wrappers

  /** A JSON value; an object keeps its members in insertion order, as
      `JSON.stringify` prints them. */
  datatype Json =
    | JNull
    | JStr(s: string)
    | JInt(n: int)
    | JBool(b: bool)
    | JArr(items: seq<Json>)
    | JObj(members: seq<(string, Json)>)

  /** The member names of an object, in order. */
  function Keys(members: seq<(string, Json)>): (ks: seq<string>)
    ensures |ks| == |members|
    ensures forall i :: 0 <= i < |members| ==> ks[i] == members[i].0
  {
    if members == [] then [] else [members[0].0] + Keys(members[1..])
  }

  /** The value of the first member called `key`. */
  function Lookup(members: seq<(string, Json)>, key: string): Option<Json> {
    if members == [] then None
    else if members[0].0 == key then Some(members[0].1)
    else Lookup(members[1..], key)
  }

  /** A lookup fails exactly when no member has the name, and what it finds
      is one of the members. */
  lemma {:induction false} LookupFinds(members: seq<(string, Json)>, key: string)
    ensures Lookup(members, key).None? <==> key !in Keys(members)
    ensures Lookup(members, key).Some? ==> (key, Lookup(members, key).value) in members
  {
    if members != [] {
      LookupFinds(members[1..], key);
      assert Keys(members) == [members[0].0] + Keys(members[1..]);
    }
  }

  /** The object left by `const { key, ...rest } = obj`: every member called
      `key` removed, the others kept in order. */
  function Without(members: seq<(string, Json)>, key: string): (r: seq<(string, Json)>)
    ensures |r| <= |members|
  {
    if members == [] then []
    else if members[0].0 == key then Without(members[1..], key)
    else [members[0]] + Without(members[1..], key)
  }

  /** The rest object has no member called `key`, answers every other
      lookup as the original did, and keeps exactly the other members. */
  lemma {:induction false} WithoutSpec(members: seq<(string, Json)>, key: string, other: string)
    requires other != key
    ensures Lookup(Without(members, key), key).None?
    ensures Lookup(Without(members, key), other) == Lookup(members, other)
    ensures forall m :: m in Without(members, key) <==> m in members && m.0 != key
  {
    if members != [] {
      WithoutSpec(members[1..], key, other);
      if members[0].0 != key {
        var r := Without(members, key);
        assert r == [members[0]] + Without(members[1..], key);
        assert r[1..] == Without(members[1..], key);
      }
    }
  }

  /** A value that may be `null` in a database row. */
  function Nullable(v: Option<string>): Json {
    match v
    case Some(s) => JStr(s)
    case None => JNull
  }

  /** A member whose value may be `undefined`: `JSON.stringify` drops it. */
  function MaybeMember(key: string, v: Option<string>): seq<(string, Json)> {
    match v
    case Some(s) => [(key, JStr(s))]
    case None => []
  }

  datatype Response = Response(status: int, body: Json)

  /** `{ error }` */
  function ErrorBody(error: string): Json {
    JObj([("error", JStr(error))])
  }

  /** `{ error, message }` */
  function ErrorMessageBody(error: string, message: string): Json {
    JObj([("error", JStr(error)), ("message", JStr(message))])
  }

  /** What an Express middleware does: call `next` with what it attached to
      the request, or end the request with a response. */
  datatype Step<+T> = Next(value: T) | Halt(response: Response)
}
