/**
 The JSON values the program reads from and writes into playlist
 descriptions, with the JavaScript semantics of reading and writing one
 property on a parsed value.
 */
module Json {
  import opened Wrappers

  /** What `JSON.parse` can return (numbers restricted to integers). */
  datatype Json =
    | JNull
    | JBool(b: bool)
    | JNumber(n: int)
    | JString(str: string)
    | JArray(elems: seq<Json>)
    | JObject(fields: map<string, Json>)

  /** The two properties the program ever reads or writes. */
  datatype Key = ReversePlaylistEnabled | GlobalHash

  function KeyName(k: Key): string {
    match k
    case ReversePlaylistEnabled => "reverse_playlist_enabled"
    case GlobalHash => "global_hash"
  }

  /** The `TypeError` JavaScript throws on a property access it refuses. */
  datatype TypeError = CannotRead(readKey: Key) | CannotSet(setKey: Key)

  /**
   `value[key]`: reading from `null` throws; an object yields its own field or
   `undefined` (`None`); arrays and primitives have no property of either name.
   */
  function Lookup(v: Json, key: Key): (r: Result<Option<Json>, TypeError>)
    ensures r.Err? <==> v.JNull?
    ensures r.Ok? && r.value.Some? ==> v.JObject? && KeyName(key) in v.fields && r.value.value == v.fields[KeyName(key)]
    ensures v.JObject? && KeyName(key) in v.fields ==> r == Ok(Some(v.fields[KeyName(key)]))
  {
    match v
    case JNull => Err(CannotRead(key))
    case JObject(fields) => Ok(if KeyName(key) in fields then Some(fields[KeyName(key)]) else None)
    case _ => Ok(None)
  }

  /**
   `value[key] = x`, seen through `JSON.stringify`: an object gains or replaces
   that one field; an array takes the property but serializes without it;
   `null` and, in strict-mode code, every primitive throw.
   */
  function Assign(v: Json, key: Key, x: Json): (r: Result<Json, TypeError>)
    ensures r.Err? <==> !v.JObject? && !v.JArray?
    ensures v.JArray? ==> r == Ok(v)
    ensures v.JObject? ==>
              && r.Ok? && r.value.JObject?
              && r.value.fields.Keys == v.fields.Keys + {KeyName(key)}
              && r.value.fields[KeyName(key)] == x
              && forall k :: k in v.fields && k != KeyName(key) ==> r.value.fields[k] == v.fields[k]
  {
    match v
    case JObject(fields) => Ok(JObject(fields[KeyName(key) := x]))
    case JArray(_) => Ok(v)
    case _ => Err(CannotSet(key))
  }

  /** Reading a property back after writing it into an object yields the value written, and leaves the other property as it was. */
  lemma AssignThenLookup(v: Json, key: Key, x: Json, other: Key)
    requires v.JObject?
    requires other != key
    ensures Assign(v, key, x).Ok?
    ensures Lookup(Assign(v, key, x).value, key) == Ok(Some(x))
    ensures Lookup(Assign(v, key, x).value, other) == Lookup(v, other)
  {
    assert KeyName(other) != KeyName(key);
  }
}
