/**
 * The request and response shapes the route handlers exchange: the parts
 * of the Fetch API's `Request` and `Response` that the handlers read and
 * build. Response bodies that the source writes with `JSON.stringify` are
 * kept as JSON values; no serialisation is modelled.
 */
module Http {
  import opened Base
  import opened Types

  /** A JSON value as `JSON.stringify` would receive it (numbers are integers here). */
  datatype Json =
    | JNull
    | JBool(b: bool)
    | JNum(n: int)
    | JStr(s: string)
    | JObj(fields: seq<(string, Json)>)

  datatype Body =
    | NoBody
    | Text(text: string)
    | Bytes(bytes: seq<byte>)
    | JsonBody(json: Json)
      /** `JSON.stringify(response)` of a listing. */
    | ListBody(listing: ListResponse)

  datatype Response = Response(status: nat, headers: map<string, string>, body: Body)

  /**
   * A field of a parsed JSON request body, after destructuring: `Missing`
   * for every falsy value (absent, `null`, `false`, `0`, `""`), `Str` for a
   * non-empty string and `NonString` for any other truthy value, carried
   * with its `String(...)` rendering.
   */
  datatype Arg = Missing | Str(s: string) | NonString(rendered: string)

  /** A file part of a multipart form: `file.name` and its bytes (`file.size` is their number). */
  datatype Upload = Upload(name: string, data: seq<byte>)

  /**
   * `formData.get('file')`: no such entry (`null`), a text value, or a file
   * part. A text value is a string, not a `File`: it has no `size` and no
   * `name`.
   */
  datatype FormEntry = NoEntry | TextField(text: string) | FilePart(file: Upload)

  /**
   * `headers` is keyed by lower-case header name (a `Headers` lookup
   * ignores case); `query` holds the first value of each search parameter.
   * `json` is the destructured JSON body, None when `req.json()` throws or
   * yields `null`; `form` is None when `req.formData()` throws, and holds
   * the form's `file` entry otherwise.
   */
  datatype Request = Request(
    httpMethod: string,
    path: string,
    query: map<string, string>,
    headers: map<string, string>,
    json: Option<map<string, Arg>>,
    form: Option<FormEntry>)

  /** A non-empty `Str`: what `!value` lets through as a usable string. */
  function ArgOf(fields: map<string, Arg>, name: string): (a: Arg)
    ensures a.Str? ==> a.s != ""
  {
    if name in fields && !(fields[name].Str? && fields[name].s == "") then fields[name] else Missing
  }

  /** A truthy field as a string: in a template literal, or handed to code that coerces it. */
  function Rendered(a: Arg): string
    requires !a.Missing?
  {
    if a.Str? then a.s else a.rendered
  }

  /** `req.headers.get(name)`; `name` is lower-case. */
  function Header(req: Request, name: string): Option<string> {
    if name in req.headers then Some(req.headers[name]) else None
  }

  /** `url.searchParams.get(name)`. */
  function Query(req: Request, name: string): Option<string> {
    if name in req.query then Some(req.query[name]) else None
  }

  /** A JavaScript string in a condition: absent or empty is false. */
  predicate Truthy(v: Option<string>) {
    v.Some? && v.value != ""
  }

  /** `value || fallback`. */
  function OrElse(v: Option<string>, fallback: string): (r: string)
    ensures Truthy(v) ==> r == v.value
    ensures !Truthy(v) ==> r == fallback
  {
    if Truthy(v) then v.value else fallback
  }

  const JsonType := map["Content-Type" := "application/json"]

  /** `new Response(JSON.stringify(value), { status, headers: { 'Content-Type': 'application/json' } })`. */
  function JsonResponse(status: nat, value: Json): Response {
    Response(status, JsonType, JsonBody(value))
  }

  /** `{ error, message }`. */
  function ErrorJson(error: string, message: string): Json {
    JObj([("error", JStr(error)), ("message", JStr(message))])
  }

  function TextResponse(status: nat, text: string): Response {
    Response(status, map[], Text(text))
  }
}
