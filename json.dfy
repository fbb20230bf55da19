/** JSON values as the extension's `json.loads` hands them over, together with
    the two bits of Python semantics the core leans on everywhere: truthiness
    (`x or default`, `if parsed`) and which values may serve as dictionary keys.
 */
module Json {

  datatype Option<+T> = None | Some(value: T)

  /** A decoded JSON document. Numbers are kept as integers: every number the core
      inspects or produces (status codes, error codes, sample defaults) is one. */
  datatype Json =
    | JNull
    | JBool(b: bool)
    | JNumber(n: int)
    | JString(s: string)
    | JArray(items: seq<Json>)
    | JObject(fields: map<string, Json>)

  /** `json.loads` is not modelled: every operation that decodes text receives it
      as a total function that yields None where the library raises ValueError. */
  type Parser = string -> Option<Json>

  /** Python truthiness of a decoded value: null, false, 0, "", [] and {} are false. */
  predicate Truthy(j: Json) {
    match j
    case JNull => false
    case JBool(b) => b
    case JNumber(n) => n != 0
    case JString(s) => s != ""
    case JArray(xs) => xs != []
    case JObject(m) => m != map[]
  }

  /** Values Python accepts as dictionary keys: lists and dicts raise TypeError. */
  predicate Hashable(j: Json) {
    !j.JArray? && !j.JObject?
  }

  /** `key in obj`, then `obj[key]`, restricted to what survives Python's dynamic typing:
      for a list or a string `in` tests membership, but the following subscript with
      a string raises TypeError, so only a JSON object ever yields a field. */
  function Field(j: Json, key: string): (r: Option<Json>)
    ensures r.Some? <==> j.JObject? && key in j.fields
    ensures r.Some? ==> r.value == j.fields[key]
  {
    if j.JObject? && key in j.fields then Some(j.fields[key]) else None
  }

  /** The synthetic `{"error": {"code": code, "message": message}}` responses. */
  function ErrorResponse(code: int, message: string): (r: Json)
    ensures ErrorCode(r) == Some(code)
    ensures Truthy(r)
  {
    JObject(map["error" := JObject(map["code" := JNumber(code), "message" := JString(message)])])
  }

  /** The `error.code` of a response, when it has one. */
  function ErrorCode(r: Json): Option<int> {
    match Field(r, "error")
    case Some(e) =>
      (match Field(e, "code")
       case Some(JNumber(c)) => Some(c)
       case _ => None)
    case None => None
  }

  const ParseErrorCode: int := -32700
  const TransportErrorCode: int := -1
  const TimeoutErrorCode: int := -32000

  /** The response handed to a caller when a body decodes to nothing usable. */
  function ParseError(): Json {
    ErrorResponse(ParseErrorCode, "Parse error")
  }
}
