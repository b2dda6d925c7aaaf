/** Parsed JSON request bodies, as the validators receive them. */
module Json {
  import opened Wrappers

  datatype Json =
    | JNull
    | JBool(b: bool)
    | JNumber(n: real)
    | JString(s: string)
    | JArray(items: seq<Json>)
    | JObject(members: map<string, Json>)

  /** A member of an object: missing, `null`, or a value. */
  function Member(members: map<string, Json>, key: string): (f: Field<Json>)
    ensures f.Absent? <==> key !in members
    ensures f.Present? ==> f.value == members[key] && f.value != JNull
  {
    if key !in members then Absent
    else if members[key] == JNull then Null
    else Present(members[key])
  }

  /** The members of an object under the given keys only. */
  function Restrict(members: map<string, Json>, keys: set<string>): (r: map<string, Json>)
    ensures forall k :: k in keys ==> Member(r, k) == Member(members, k)
    ensures forall k :: k in r ==> k in keys
  {
    map k | k in members && k in keys :: members[k]
  }
}
