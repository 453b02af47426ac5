/**
 * The error and response conventions of the API routes (app/lib/api/errors.ts):
 * what a thrown value becomes as an HTTP answer, the success envelope, the
 * body validation wrapper and two request-header readers.
 */
module ApiErrors {
  import Text
  import opened Wrappers

  /** One zod issue: the path of the offending field and its message. */
  datatype Issue = Issue(path: seq<string>, message: string)

  /**
   * The values a route can throw, by the `instanceof` test that recognises
   * them: an `ApiError`, a `ZodError`, any other `Error`, or a non-Error value.
   */
  datatype Thrown =
    | ApiError(statusCode: int, message: string, errors: Option<seq<Issue>>)
    | ZodError(issues: seq<Issue>)
    | PlainError(message: string)
    | NotAnError

  /** Either a value or what was thrown instead. */
  datatype Outcome<T> = Ok(value: T) | Throws(error: Thrown)

  /** A JSON answer: the envelope `{ success, error, errors }` or `{ success, data }` with its status. */
  datatype Response<T> =
    | ErrorBody(status: int, error: string, errors: Option<seq<Issue>>)
    | SuccessBody(status: int, data: T)
  {
    predicate Success() { SuccessBody? }
  }

  function Fail<T>(status: int, message: string): Outcome<T> {
    Throws(ApiError(status, message, None))
  }

  /** `errorHandler`: an ApiError keeps its status, a ZodError is 400, anything else 500. */
  function ErrorHandler<T>(e: Thrown): (r: Response<T>)
    ensures !r.Success()
    ensures e.ApiError? ==> r.status == e.statusCode && r.error == e.message && r.errors == e.errors
    ensures e.ZodError? ==> r.status == 400 && r.error == "Validation error" && r.errors == Some(e.issues)
    ensures !e.ApiError? && !e.ZodError? ==> r.status == 500
    ensures e.PlainError? ==> r == ErrorBody(500, e.message, None)
    ensures e.NotAnError? ==> r.error == "An unexpected error occurred"
  {
    match e
    case ApiError(code, msg, errs) => ErrorBody(code, msg, errs)
    case ZodError(issues) => ErrorBody(400, "Validation error", Some(issues))
    case PlainError(msg) => ErrorBody(500, msg, None)
    case NotAnError => ErrorBody(500, "An unexpected error occurred", None)
  }

  /** `successResponse(data, status = 200)`. */
  function SuccessResponse<T>(data: T, status: Option<int>): (r: Response<T>)
    ensures r.Success() && r.data == data
    ensures status.None? ==> r.status == 200
    ensures status.Some? ==> r.status == status.value
  {
    SuccessBody(status.GetOr(200), data)
  }

  /** What a route answers for the outcome of its body: the data, or the error handler's answer. */
  function Respond<T>(o: Outcome<T>, status: Option<int>): (r: Response<T>)
    ensures r.Success() <==> o.Ok?
  {
    match o
    case Ok(v) => SuccessResponse(v, status)
    case Throws(e) => ErrorHandler(e)
  }

  /**
   * `validateRequest`: reading the JSON body and parsing it with the schema;
   * a ZodError from either becomes ApiError(400, "Validation error", issues)
   * and any other failure is rethrown unchanged.
   */
  function ValidateRequest<J, T>(body: Outcome<J>, schema: J -> Outcome<T>): (r: Outcome<T>)
    ensures body.Ok? && schema(body.value).Ok? ==> r == schema(body.value)
    ensures var raw := if body.Ok? then schema(body.value) else Throws(body.error);
      raw.Throws? && raw.error.ZodError? ==> r == Throws(ApiError(400, "Validation error", Some(raw.error.issues)))
    ensures var raw := if body.Ok? then schema(body.value) else Throws(body.error);
      raw.Throws? && !raw.error.ZodError? ==> r == raw
  {
    var raw := if body.Ok? then schema(body.value) else Throws(body.error);
    if raw.Throws? && raw.error.ZodError? then Throws(ApiError(400, "Validation error", Some(raw.error.issues)))
    else raw
  }

  /** A schema failure reaches the client as a 400 carrying the issues. */
  lemma ValidationFailureIs400<J, T>(body: J, schema: J -> Outcome<T>, issues: seq<Issue>)
    requires schema(body) == Throws(ZodError(issues))
    ensures ErrorHandler<T>(ValidateRequest(Ok(body), schema).error) == ErrorBody(400, "Validation error", Some(issues))
  {
  }

  /** A header value, or the empty string that `||` treats like an absent one. */
  function Header(h: Option<string>): string { h.GetOr("") }

  /**
   * `getClientIp`: the part of x-forwarded-for before its first comma when
   * that part is not empty, else x-real-ip when not empty, else "unknown".
   */
  function ClientIp(forwardedFor: Option<string>, realIp: Option<string>): (r: string)
    ensures r != ""
  {
    var first := if forwardedFor.Some? then Text.Split(forwardedFor.value, ',')[0] else "";
    if first != "" then first
    else if Header(realIp) != "" then Header(realIp)
    else "unknown"
  }

  /** The address taken from x-forwarded-for is exactly its text before the first comma. */
  lemma ClientIpFirstHop(xff: string, realIp: Option<string>)
    requires xff != "" && xff[0] != ','
    ensures var r := ClientIp(Some(xff), realIp);
      |r| <= |xff| && r == xff[..|r|] && ',' !in r && (|r| == |xff| || xff[|r|] == ',')
  {
    Text.SplitFirst(xff, ',');
  }

  /** Without a usable x-forwarded-for the address falls back to x-real-ip, then "unknown". */
  lemma ClientIpFallback(forwardedFor: Option<string>, realIp: Option<string>)
    requires forwardedFor.None? || forwardedFor.value == "" || forwardedFor.value[0] == ','
    ensures ClientIp(forwardedFor, realIp) == if Header(realIp) != "" then Header(realIp) else "unknown"
  {
    if forwardedFor.Some? && forwardedFor.value != "" {
      Text.SplitFirst(forwardedFor.value, ',');
    }
  }

  /** `getUserAgent`: the user-agent header or "unknown". */
  function UserAgent(h: Option<string>): (r: string)
    ensures r != ""
    ensures h.Some? && h.value != "" ==> r == h.value
  {
    if Header(h) != "" then Header(h) else "unknown"
  }
}
