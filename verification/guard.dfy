/** The prelude every authenticated view runs before anything else:
    `verifyToken`, then `User.objects.get(id=...)` on the decoded id. Also the
    result of one request: the reply and the store after it. */
module Guard {
  import opened Types
  import opened Models
  import opened ApiResponse
  import opened Sessions

  /** A request's reply together with the database state after it. */
  datatype Outcome = Outcome(reply: Reply, store: Store)

  /** Who is calling: nobody the views accept (401), an exception from the
      token decoder (escapes the view), or a registered user. */
  datatype Caller = Unauthenticated | TokenError | Authenticated(id: UserId)

  function Authenticate(st: Store, cookie: Option<Token>, secret: Option<string>): (c: Caller)
    ensures c == TokenError <==> VerifyToken(st.sessions, cookie, secret) == DecodeFailed
    ensures forall id :: c == Authenticated(id) <==>
      VerifyToken(st.sessions, cookie, secret) == Resolved(id) && id in st.users
    ensures cookie.None? ==> c == Unauthenticated
  {
    match VerifyToken(st.sessions, cookie, secret)
    case Refused => Unauthenticated
    case DecodeFailed => TokenError
    case Resolved(id) => if id in st.users then Authenticated(id) else Unauthenticated
  }

  /** How a view answers a caller it does not accept: nothing is written. */
  function Rejection(st: Store, c: Caller): (out: Outcome)
    requires !c.Authenticated?
    ensures out.store == st
    ensures c == Unauthenticated ==> out.reply == Unauthorized
    ensures c == TokenError ==> out.reply == Unhandled
  {
    if c == TokenError then Outcome(Unhandled, st) else Outcome(Unauthorized, st)
  }

  /** How a view answers a request its validator refused: 400 with the issues,
      or the validator's own exception escaping. Nothing is written. */
  function ValidationRejection<T>(st: Store, v: Validation<T>): (out: Outcome)
    requires !v.Valid?
    ensures out.store == st
    ensures v.Invalid? ==> out.reply == Api(ValidationFailed(v.issues))
    ensures v.Raised? ==> out.reply == Unhandled
  {
    match v
    case Invalid(issues) => Outcome(Api(ValidationFailed(issues)), st)
    case Raised => Outcome(Unhandled, st)
  }
}
