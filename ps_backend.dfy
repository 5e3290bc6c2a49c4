/**
 * The replies of the local PowerShell back end, as the components see them once the JSON is
 * parsed, and the JavaScript truthiness and `??` tests the components apply to them.
 */
module PsBackend {
  import opened Wrappers

  /** A parsed JSON value. Numbers are integers here. */
  datatype Value =
    | Null
    | Bool(b: bool)
    | Number(n: int)
    | Str(s: string)
    | Array(items: seq<Value>)
    | Object(fields: seq<(string, Value)>)

  /** JavaScript truthiness of a field that may be absent: absent, `null`, `false`, `0` and `""` are false. */
  predicate Truthy(v: Option<Value>) {
    match v
    case None => false
    case Some(Null) => false
    case Some(Bool(b)) => b
    case Some(Number(n)) => n != 0
    case Some(Str(s)) => s != ""
    case Some(Array(_)) => true
    case Some(Object(_)) => true
  }

  /** `x.length` is truthy: a non-empty array or string (other values have no `length`). */
  predicate HasLength(v: Value) {
    match v
    case Array(items) => |items| > 0
    case Str(s) => |s| > 0
    case _ => false
  }

  /** `LocalResult`: the reply of `POST /local`. Absent fields are `None`. */
  datatype LocalReply = LocalReply(
    ok: bool,
    output: Option<Value>,
    errors: Option<seq<string>>,
    error: Option<string>)

  /** `StatusResult`: the reply of `GET /status`. */
  datatype StatusReply = StatusReply(ok: bool, connected: bool, context: Option<Value>)

  /**
   * How an awaited back-end call ends: it returns the parsed body (`None` when the body is
   * `null`), or it throws an error whose `message` may be missing.
   */
  datatype Outcome<T> = Returned(value: T) | Threw(message: Option<string>)

  /** `a ?? b` on an optional string. */
  function OrElse(a: Option<string>, b: string): (r: string)
    ensures a.Some? ==> r == a.value
    ensures a.None? ==> r == b
  {
    if a.Some? then a.value else b
  }

  /** `a || b` on an optional string: a missing or empty `a` gives `b`. */
  function OrIfFalsy(a: Option<string>, b: string): (r: string)
    ensures a.Some? && a.value != "" ==> r == a.value
    ensures a.None? || a.value == "" ==> r == b
  {
    if a.Some? && a.value != "" then a.value else b
  }
}
