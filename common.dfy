/** Values shared by the web backend model: optional and failing results,
    the HTTP statuses the endpoints abort with, player colours and a
    decoded JSON document. */
module Common {

  datatype Option<T> = None | Some(value: T)

  /** A result of an operation that may abort. */
  datatype Result<T, E> = Ok(value: T) | Err(error: E)

  /** The statuses `abort(...)` is called with; `ServerError` stands for an
      exception nobody catches, which Flask turns into a 500 response. */
  datatype Status = BadRequest | Unauthorized | Forbidden | NotFound | Conflict | ServerError

  /** The four player colours of the game. */
  datatype Color = RED | BLUE | ORANGE | WHITE

  /** A decoded JSON value. Objects keep their entries in insertion order,
      as a Python dict does. Floating-point numbers are not modelled. */
  datatype Json =
    | Null
    | Bool(b: bool)
    | Int(i: int)
    | Str(s: string)
    | Arr(items: seq<Json>)
    | Obj(entries: seq<(string, Json)>)

  /** Python truthiness of a JSON value. */
  predicate Truthy(j: Json)
  {
    match j
    case Null => false
    case Bool(b) => b
    case Int(i) => i != 0
    case Str(s) => s != ""
    case Arr(items) => items != []
    case Obj(entries) => entries != []
  }

  /** Entry e is the first one stored under `key`. */
  predicate FirstAt(entries: seq<(string, Json)>, key: string, e: int)
  {
    0 <= e < |entries| && entries[e].0 == key && forall d :: 0 <= d < e ==> entries[d].0 != key
  }

  /** `v` is what an object with these entries holds under `key`: the value
      of the first entry with that key, or `default` when there is none. */
  ghost predicate Holds(entries: seq<(string, Json)>, key: string, default: Json, v: Json)
  {
    && ((forall e :: 0 <= e < |entries| ==> entries[e].0 != key) ==> v == default)
    && (forall e :: FirstAt(entries, key, e) ==> v == entries[e].1)
  }

  /** `d.get(key, default)` on a JSON object (a dict decoded from JSON has
      unique keys, so its entry is the first one with that key). */
  function GetOr(entries: seq<(string, Json)>, key: string, default: Json): (v: Json)
    ensures (forall k :: 0 <= k < |entries| ==> entries[k].0 != key) ==> v == default
    ensures v != default ==> exists k :: 0 <= k < |entries| && entries[k] == (key, v)
  {
    if entries == [] then default
    else if entries[0].0 == key then entries[0].1
    else GetOr(entries[1..], key, default)
  }

  /** A lookup finds the value of the first entry under the key, and the
      default when the key is absent. */
  lemma {:induction false} GetOrFirst(entries: seq<(string, Json)>, key: string, default: Json)
    ensures Holds(entries, key, default, GetOr(entries, key, default))
  {
    if entries != [] && entries[0].0 != key {
      GetOrFirst(entries[1..], key, default);
      forall e | FirstAt(entries, key, e)
        ensures FirstAt(entries[1..], key, e - 1)
      {
      }
    }
  }

  /** `[v for k, v in d.items()]`. */
  function Values(entries: seq<(string, Json)>): (vs: seq<Json>)
    ensures |vs| == |entries|
    ensures forall k :: 0 <= k < |vs| ==> vs[k] == entries[k].1
  {
    seq(|entries|, k requires 0 <= k < |entries| => entries[k].1)
  }
}
