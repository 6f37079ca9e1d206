/** The account endpoints: registration and lookup by e-mail
    (`create_or_get_user`), `login` and `logout`, as transitions of the store.
    The lookup and login validators are not part of this model: their parsed
    outputs are inputs here. */
module UserViews {
  import opened Types
  import opened Models
  import opened ApiResponse
  import opened Sessions
  import opened Guard
  import opened UserValidators

  const UserCreated := "User has been created."
  const EmailTaken := "User with this email already exists."
  const UserFound := "User found with this email."
  const UserNotFound := "User not found with this email."
  const LoggedIn := "User has been logged in."
  const LoggedOutMessage := "User has been logged out."
  const InternalError := "Internal Server Error."

  /** The form fields of a registration; any of them may be missing. */
  datatype RegisterRequest = RegisterRequest(name: Option<string>, email: Option<string>,
                                             picture: Option<UploadedFile>, password: Option<string>)

  function ValidateRegistration(req: RegisterRequest, sv: Services): Validation<UserFields> {
    ValidateCreateUser(req.name, req.email, req.picture, req.password, sv.isEmail)
  }

  /** `create_or_get_user` with POST: validate, refuse a taken e-mail before
      writing anything, then hash the password, upload the picture and insert
      the row under the fresh primary key `newId` (a key already in use makes
      the insert fail, which the view answers with 500). */
  function Register(st: Store, sv: Services, req: RegisterRequest, newId: UserId): (out: Outcome)
    ensures out.reply.Api? ==> WellFormed(out.reply.response)
    ensures out.store.sessions == st.sessions
    ensures !Succeeded(out.reply) ==> out.store == st
    ensures var v := ValidateRegistration(req, sv);
            !v.Valid? ==> out == ValidationRejection(st, v)
    ensures var v := ValidateRegistration(req, sv);
            v.Valid? && !EmailFree(st.users, v.value.email) ==> out == Outcome(Api(Fail(409, EmailTaken)), st)
    ensures var v := ValidateRegistration(req, sv);
            Succeeded(out.reply) <==> v.Valid? && EmailFree(st.users, v.value.email) && newId !in st.users
    ensures Succeeded(out.reply) ==>
              && Status(out.reply) == 201
              && newId !in st.users
              && newId in out.store.users
              && out.store == st.(users := st.users[newId := out.store.users[newId]])
              && out.store.users[newId] == User(req.name.value, req.email.value, sv.upload(req.picture.value), sv.hash(req.password.value))
  {
    var v := ValidateRegistration(req, sv);
    if !v.Valid? then
      ValidationRejection(st, v)
    else
      var d := v.value;
      if UsersWithEmail(st.users, d.email) != {} then
        Outcome(Api(Fail(409, EmailTaken)), st)
      else if newId in st.users then
        Outcome(Api(Fail(500, InternalError)), st)
      else
        var user := User(d.name, d.email, sv.upload(d.picture), sv.hash(d.password));
        Outcome(Api(Done(201, UserCreated)), st.(users := st.users[newId := user]))
  }

  /** `create_or_get_user` with GET: the user whose e-mail is given, or 404.
      Only DoesNotExist is caught, so two rows with the same e-mail (which the
      unique constraint rules out) would escape the view. */
  function GetUser(st: Store, parsed: Validation<string>): (out: Outcome)
    ensures out.reply.Api? ==> WellFormed(out.reply.response)
    ensures out.store == st
    ensures !parsed.Valid? ==> out == ValidationRejection(st, parsed)
    ensures parsed.Valid? && EmailFree(st.users, parsed.value) ==> out.reply == Api(Fail(404, UserNotFound))
    ensures parsed.Valid? && EmailsUnique(st.users) && !EmailFree(st.users, parsed.value) ==> Succeeded(out.reply)
    ensures Succeeded(out.reply) ==>
              && parsed.Valid?
              && Status(out.reply) == 200
              && var data := out.reply.response.body.data;
                 data.Some? && data.value.UserRow? && data.value.id in st.users &&
                 data.value.user == st.users[data.value.id] && data.value.user.email == parsed.value
  {
    if !parsed.Valid? then
      ValidationRejection(st, parsed)
    else
      match GetByEmail(st.users, parsed.value)
      case Missing => Outcome(Api(Fail(404, UserNotFound)), st)
      case Ambiguous => Outcome(Unhandled, st)
      case Found(id) =>
        Outcome(Api(APIResponse(true, 200, UserFound, Some(UserRow(id, st.users[id])), None, None)), st)
  }

  /** The parsed body of a login request. */
  datatype Credentials = Credentials(email: string, password: string)

  /** The one answer for an unknown e-mail and for a wrong password alike. */
  const InvalidCredentials: Reply := Api(Fail(409, "Invalid Credentials."))

  /** `login`: look the user up by e-mail, check the password against the
      stored hash, then issue a token (one new session row) and set it as the
      `token` cookie. */
  function Login(st: Store, sv: Services, parsed: Validation<Credentials>): (out: Outcome)
    ensures out.reply.Api? ==> WellFormed(out.reply.response)
    ensures !Succeeded(out.reply) ==> out.store == st
    ensures !parsed.Valid? ==> out == ValidationRejection(st, parsed)
    ensures parsed.Valid? && EmailFree(st.users, parsed.value.email) ==> out == Outcome(InvalidCredentials, st)
    ensures parsed.Valid? && GetByEmail(st.users, parsed.value.email).Found? &&
            !sv.checkpw(parsed.value.password, st.users[GetByEmail(st.users, parsed.value.email).id].password) ==>
              out == Outcome(InvalidCredentials, st)
    ensures Succeeded(out.reply) <==>
              && parsed.Valid?
              && GetByEmail(st.users, parsed.value.email).Found?
              && sv.checkpw(parsed.value.password, st.users[GetByEmail(st.users, parsed.value.email).id].password)
              && sv.secret.Some?
    ensures Succeeded(out.reply) ==>
              var u := GetByEmail(st.users, parsed.value.email).id;
              && Status(out.reply) == 200
              && out.store == st.(sessions := st.sessions + multiset{u})
              && out.reply.response.cookies.SetCookie?
              && Decode(out.reply.response.cookies.cookie.value, sv.secret) == Claims(u)
  {
    if !parsed.Valid? then
      ValidationRejection(st, parsed)
    else
      var creds := parsed.value;
      match GetByEmail(st.users, creds.email)
      case Missing => Outcome(InvalidCredentials, st)
      case Ambiguous => Outcome(Unhandled, st)
      case Found(id) =>
        if !sv.checkpw(creds.password, st.users[id].password) then
          Outcome(InvalidCredentials, st)
        else
          match InitializeToken(st.sessions, id, sv.secret)
          case SigningFailed => Outcome(Api(Fail(500, InternalError)), st)
          case Issued(token, sessions) =>
            Outcome(Api(APIResponse(true, 200, LoggedIn, None, Some(token), None)), st.(sessions := sessions))
  }

  /** The response `logout` builds by hand: the envelope's shape, and the
      `token` cookie deleted. */
  const LoggedOut: Response := Response(200, Body(true, 200, LoggedOutMessage, None, None), DeleteCookie("token"))

  /** `logout`: delete every session row of the caller and clear the cookie. */
  function Logout(st: Store, sv: Services, cookie: Option<Token>): (out: Outcome)
    ensures out.reply.Api? ==> WellFormed(out.reply.response)
    ensures var c := Authenticate(st, cookie, sv.secret);
            !c.Authenticated? ==> out == Rejection(st, c)
    ensures var c := Authenticate(st, cookie, sv.secret);
            c.Authenticated? ==>
              && out.reply == Api(LoggedOut)
              && out.store.users == st.users && out.store.notes == st.notes
              && out.store.sessions[c.id] == 0
              && forall v :: v != c.id ==> out.store.sessions[v] == st.sessions[v]
  {
    match Authenticate(st, cookie, sv.secret)
    case Authenticated(u) => Outcome(Api(LoggedOut), st.(sessions := st.sessions[u := 0]))
    case Unauthenticated => Rejection(st, Unauthenticated)
    case TokenError => Rejection(st, TokenError)
  }
}
