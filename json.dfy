/** Decoded JSON as the Python values `json.loads` produces, and the few
    Python operations the resolver applies to them: `bool(v)`, `v.get(k, d)`,
    `k in v` and `v[k]`. `JNull` is Python's `None`. */
module Json {
  import opened Wrappers

  datatype Json =
    | JNull
    | JBool(b: bool)
    | JNumber(n: real)
    | JString(s: string)
    | JArray(items: seq<Json>)
    | JObject(fields: map<string, Json>)

  /** The Python exceptions the modelled code can raise. */
  datatype Raised =
    | RequestFailed   // `requests.get` or `resp.json()` raised
    | AttributeError  // `.get` on a value that is not a dict
    | TypeError       // `in` or `[...]` on a value that does not support it
    | KeyError        // `d[k]` with `k` not a key of `d`

  /** Python truthiness: `None`, `False`, zero and empty containers are false. */
  predicate Truthy(v: Json): (t: bool)
    ensures v.JNull? ==> !t
    ensures v.JBool? ==> (t <==> v.b)
    ensures v.JNumber? ==> (t <==> v.n != 0.0)
    ensures v.JString? ==> (t <==> |v.s| > 0)
    ensures v.JArray? ==> (t <==> |v.items| > 0)
    ensures v.JObject? ==> (t <==> |v.fields| > 0)
  {
    match v
    case JNull => false
    case JBool(b) => b
    case JNumber(n) => n != 0.0
    case JString(s) => s != ""
    case JArray(items) => items != []
    case JObject(fields) => fields != map[]
  }

  /** `needle` occurs as a contiguous part of `hay` (Python `needle in hay` on str). */
  predicate IsInfix(needle: string, hay: string): (found: bool)
    ensures found <==> exists i :: 0 <= i <= |hay| && needle <= hay[i..]
    decreases |hay|
  {
    if needle <= hay then
      assert hay[0..] == hay;
      true
    else if hay == [] then
      false
    else
      assert forall i :: 1 <= i <= |hay| ==> hay[i..] == hay[1..][i - 1..];
      IsInfix(needle, hay[1..])
  }

  /** `v.get(key, default)`: only a dict has `.get`. */
  function Get(v: Json, key: string, default: Json): (r: Result<Json, Raised>)
    ensures r.Err? <==> !v.JObject?
    ensures r.Err? ==> r.error == AttributeError
    ensures r.Ok? && key in v.fields ==> r.value == v.fields[key]
    ensures r.Ok? && key !in v.fields ==> r.value == default
  {
    match v
    case JObject(fields) => Ok(if key in fields then fields[key] else default)
    case _ => Err(AttributeError)
  }

  /** `key in v` for a string `key`: a key test on a dict, a substring test on
      a str, an element test on a list; a TypeError on anything else. */
  function Contains(v: Json, key: string): (r: Result<bool, Raised>)
    ensures r.Err? <==> v.JNull? || v.JBool? || v.JNumber?
    ensures r.Err? ==> r.error == TypeError
    ensures v.JObject? ==> r == Ok(key in v.fields)
    ensures v.JString? ==> r == Ok(IsInfix(key, v.s))
    ensures v.JArray? ==> r == Ok(JString(key) in v.items)
  {
    match v
    case JObject(fields) => Ok(key in fields)
    case JString(s) => Ok(IsInfix(key, s))
    case JArray(items) => Ok(JString(key) in items)
    case _ => Err(TypeError)
  }

  /** `v[key]` for a string `key`: only a dict can be indexed by a str. */
  function Index(v: Json, key: string): (r: Result<Json, Raised>)
    ensures r.Ok? <==> v.JObject? && key in v.fields
    ensures r.Ok? ==> r.value == v.fields[key]
    ensures r.Err? && v.JObject? ==> r.error == KeyError
    ensures r.Err? && !v.JObject? ==> r.error == TypeError
  {
    match v
    case JObject(fields) => if key in fields then Ok(fields[key]) else Err(KeyError)
    case _ => Err(TypeError)
  }
}
