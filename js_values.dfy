/**
 * The JavaScript values that arrive in event payloads and request bodies, and
 * the truthiness tests the handlers apply to them.
 */
module JsValues {
  import opened Options

  /** A JSON-like value. Numbers are integers here (see README, "Left out"). */
  datatype JsValue = Undefined | Null | Bool(b: bool) | Num(n: int) | Str(s: string) | Obj

  /** `!!v` */
  predicate Truthy(v: JsValue) {
    match v
    case Undefined => false
    case Null => false
    case Bool(b) => b
    case Num(n) => n != 0
    case Str(s) => s != ""
    case Obj => true
  }

  /** The `data` argument of a socket event: `null`/`undefined`, or an object
      whose missing properties read as `undefined`. Any other primitive reads
      as an object without properties. */
  datatype Payload = Nullish | Fields(fields: map<string, JsValue>)

  /** `data[name]` on an object payload. */
  function Get(fields: map<string, JsValue>, name: string): JsValue {
    if name in fields then fields[name] else Undefined
  }

  /** The guard `!v || typeof v !== "string"` passes, yielding the string. */
  function NonEmptyString(v: JsValue): (r: Option<string>)
    ensures r.Some? <==> Truthy(v) && v.Str?
    ensures r.Some? ==> v == Str(r.value) && r.value != ""
  {
    if v.Str? && v.s != "" then Some(v.s) else None
  }
}
