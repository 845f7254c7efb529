/** The JSON-like values the migration job handles, and the two pieces of
    Python dictionary semantics its transformations rely on: truthiness and
    subscripting by a string key. */
module Json {
  import opened Wrappers

  /** A value decoded from a query result or a converter response.
      Numbers are kept as reals; the job never computes with them. */
  datatype Json =
    | JNull
    | JBool(b: bool)
    | JNum(n: real)
    | JStr(s: string)
    | JList(items: seq<Json>)
    | JObj(members: map<string, Json>)

  /** One source record for one locale: field name to field value. */
  type Record = map<string, Json>

  /** What the job's dictionary and list accesses can raise. */
  datatype Fault =
    | KeyMissing(key: string)                    // KeyError: a dict lacks the key
    | NotSubscriptable(key: string)              // TypeError: `v[key]` on a non-dict
    | SlugNotString(slug: Json)                  // a slug that is not a string key
    | NoEntryFound(contentType: string, slug: Json)  // IndexError: `entries(...)[0]` on no match

  /** Python's `bool(v)`: null, false, zero and empty containers are falsy. */
  function Truthy(v: Json): (b: bool)
    ensures !b <==> v in {JNull, JBool(false), JNum(0.0), JStr(""), JList([]), JObj(map[])}
  {
    match v
    case JNull => false
    case JBool(b) => b
    case JNum(n) => n != 0.0
    case JStr(s) => s != ""
    case JList(items) => items != []
    case JObj(members) => members != map[]
  }

  /** Python's `v[key]` for a string key. */
  function Subscript(v: Json, key: string): (r: Result<Json, Fault>)
    ensures r.Ok? <==> v.JObj? && key in v.members
    ensures r.Ok? ==> r.value == v.members[key]
    ensures v.JObj? && key !in v.members ==> r == Err(KeyMissing(key))
    ensures !v.JObj? ==> r == Err(NotSubscriptable(key))
  {
    match v
    case JObj(members) =>
      if key in members then Ok(members[key]) else Err(KeyMissing(key))
    case _ => Err(NotSubscriptable(key))
  }
}
