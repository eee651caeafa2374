/** Values shared by every component of the authentication core: optional
    values, HTTP error outcomes, and the JSON values a request session holds. */
module Common {

  datatype Option<+T> = None | Some(value: T)

  /** An HTTP error response: a status code and the detail text sent with it. */
  datatype HttpError = HttpError(status: int, detail: string)

  /** Either the value a handler produced or the HTTP error raised instead. */
  datatype Result<+T> = Ok(value: T) | Err(error: HttpError)

  const Unauthorized := HttpError(401, "Could not validate credentials")
  const Forbidden := HttpError(403, "Permission denied")
  const RateLimitExceeded := HttpError(429, "Rate limit exceeded. Please try again later.")
  const TooManyRequests := HttpError(429, "Too many requests")

  /** The JSON values a signed-cookie session can hold (floats are not modelled). */
  datatype Json =
    | JNull
    | JBool(b: bool)
    | JInt(i: int)
    | JStr(s: string)
    | JList(items: seq<Json>)
    | JObject(fields: map<string, Json>)

  /** Python truthiness of a JSON value: `not v` holds exactly when this is false. */
  predicate Truthy(v: Json)
  {
    match v
    case JNull => false
    case JBool(b) => b
    case JInt(i) => i != 0
    case JStr(s) => s != ""
    case JList(items) => items != []
    case JObject(fields) => fields != map[]
  }

  /** `d.get(key)` on a Python dict. */
  function Get(d: map<string, Json>, key: string): (r: Option<Json>)
    ensures r.Some? <==> key in d
    ensures r.Some? ==> r.value == d[key]
  {
    if key in d then Some(d[key]) else None
  }
}
