/** The uniform response envelope every endpoint answers with, and the
    `token` cookie decision that goes with it. The `meta.timestamp` member is a
    clock reading and is left out. */
module ApiResponse {
  import opened Types
  import opened Models

  /** One listed note: its primary key and its row. */
  datatype NoteRow = NoteRow(id: NoteId, note: Note)

  /** The serialized data an endpoint can return. */
  datatype Payload = NoteRows(rows: seq<NoteRow>) | UserRow(id: UserId, user: User)

  datatype Body = Body(success: bool, statusCode: int, message: string, data: Option<Payload>, error: Option<seq<Issue>>)

  datatype Cookie = Cookie(key: string, value: Token, httpOnly: bool, secure: bool, sameSite: string)

  /** What the response does to the client's cookies. */
  datatype CookieAction = Untouched | SetCookie(cookie: Cookie) | DeleteCookie(key: string)

  datatype Response = Response(status: int, body: Body, cookies: CookieAction)

  /** What the client receives: a response built by the view, or the
      framework's bare 500 page when an exception escapes the view. */
  datatype Reply = Api(response: Response) | Unhandled

  /** The envelope's own invariant: `statusCode` is the HTTP status, `data`
      appears only on success and `error` only on failure. */
  predicate WellFormed(r: Response) {
    && r.body.statusCode == r.status
    && (!r.body.success ==> r.body.data == None)
    && (r.body.success ==> r.body.error == None)
  }

  /** The shared response builder. The cookie argument is truthy exactly when
      present: the only value ever passed is an encoded JWT, which is never the
      empty string. */
  function APIResponse(success: bool, statusCode: int, message: string, data: Option<Payload>,
                       cookie: Option<Token>, error: Option<seq<Issue>>): (r: Response)
    ensures WellFormed(r)
    ensures r.status == statusCode
    ensures r.body.success == success && r.body.message == message
    ensures success ==> r.body.data == data
    ensures !success ==> r.body.error == error
    ensures r.cookies.SetCookie? <==> cookie.Some?
    ensures cookie.Some? ==> r.cookies.cookie == Cookie("token", cookie.value, true, false, "Lax")
    ensures cookie.None? ==> r.cookies == Untouched
  {
    var body := Body(success, statusCode, message,
                     if success then data else None,
                     if !success then error else None);
    var cookies := match cookie
      case Some(t) => SetCookie(Cookie("token", t, true, false, "Lax"))
      case None => Untouched;
    Response(statusCode, body, cookies)
  }

  /** A failure envelope with no detail. */
  function Fail(statusCode: int, message: string): Response {
    APIResponse(false, statusCode, message, None, None, None)
  }

  /** A 400 envelope listing the validation issues. */
  function ValidationFailed(issues: seq<Issue>): Response {
    APIResponse(false, 400, "Failed in type validation.", None, None, Some(issues))
  }

  /** A success envelope with no data. */
  function Done(statusCode: int, message: string): Response {
    APIResponse(true, statusCode, message, None, None, None)
  }

  /** The HTTP status the client sees. */
  function Status(r: Reply): int {
    match r
    case Api(resp) => resp.status
    case Unhandled => 500
  }

  predicate Succeeded(r: Reply) {
    r.Api? && r.response.body.success
  }

  /** The 401 every authenticated endpoint answers when the caller cannot be resolved. */
  const Unauthorized: Reply := Api(Fail(401, "Unauthorized"))
}
