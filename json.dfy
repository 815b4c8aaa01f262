/** The values the routes read from request bodies and the replies they send.
    A request body is a JSON object; a property that is absent reads as
    `undefined`. The scalar kinds the site's handlers look at are modelled
    one by one, and numbers are integers; an array or an object is carried
    as `JOther`, with the text `String(v)` renders it to. */
module Json {
  import opened Text

  datatype Json =
    | JUndefined
    | JNull
    | JBool(b: bool)
    | JNum(n: int)
    | JStr(s: string)
    | JOther(text: string) // an array or an object, as `String(v)` renders it

  /** JavaScript truthiness: `undefined`, `null`, `false`, `0` and `""` are the
      falsy values; everything else, arrays and objects included, is truthy. */
  predicate Truthy(v: Json)
  {
    match v
    case JUndefined => false
    case JNull => false
    case JBool(b) => b
    case JNum(n) => n != 0
    case JStr(s) => s != ""
    case JOther(_) => true
  }

  /** `a || b`: the first operand when it is truthy, else the second. */
  function Or(a: Json, b: Json): Json
  {
    if Truthy(a) then a else b
  }

  /** `String(v)`: what a template literal `${v}` renders. */
  function Render(v: Json): string
  {
    match v
    case JUndefined => "undefined"
    case JNull => "null"
    case JBool(b) => if b then "true" else "false"
    case JNum(n) => IntToString(n)
    case JStr(s) => s
    case JOther(text) => text
  }

  /** A parsed JSON request body. */
  type Body = map<string, Json>

  /** `await req.json()`: `Unparsable` when the body is not JSON, which makes
      the call throw; `NullBody` when it is the JSON `null`, on which reading
      a property throws. */
  datatype JsonRequest = Unparsable | NullBody | Parsed(body: Body)

  /** `data[name]`: the property, or `undefined` when it is absent. */
  function Field(body: Body, name: string): Json
  {
    if name in body then body[name] else JUndefined
  }

  /** What a route hands to `NextResponse.json`: a 200 reply carrying a value,
      or an error status with the `error` text and, on some routes, `details`. */
  datatype Response<T> =
    | Success(value: T)
    | Failure(status: int, error: string, details: Option<string>)

  function Fail<T>(status: int, error: string): Response<T>
  {
    Failure(status, error, None)
  }

  /** A failure passed on unchanged by a handler with a different success type. */
  function Propagate<T, U>(r: Response<T>): (q: Response<U>)
    requires r.Failure?
    ensures q.Failure? && q.status == r.status && q.error == r.error && q.details == r.details
  {
    Failure(r.status, r.error, r.details)
  }

  const Unauthorized := "Unauthorized"
}
