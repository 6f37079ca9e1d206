/** The session allow-list: tokens are issued at login together with a
    session row, and a token is honoured only while some session row of its
    user exists. JWT HS256 is abstracted to "a token decodes only under the key
    it was signed with". */
module Sessions {
  import opened Types

  /** `jwt.encode({"id": str(id)}, key, algorithm="HS256")`. */
  function Encode(id: UserId, key: string): Token {
    Signed(id, key)
  }

  /** The outcome of `jwt.decode`: the claims, or an exception. */
  datatype Decoded = Claims(id: UserId) | DecodeError

  /** `jwt.decode(token, secret, algorithms=["HS256"])`: a token decodes to
      the id it was encoded with when the secret is the signing key; a bad
      signature, a malformed token or an unset secret raises. */
  function Decode(t: Token, secret: Option<string>): (r: Decoded)
    ensures forall id :: r == Claims(id) <==> secret.Some? && t == Encode(id, secret.value)
  {
    match t
    case Signed(id, key) => if secret == Some(key) then Claims(id) else DecodeError
    case Malformed(_) => DecodeError
  }

  /** Encoding under one key loses nothing: distinct ids give distinct tokens. */
  lemma EncodeInjective(a: UserId, b: UserId, key: string)
    requires Encode(a, key) == Encode(b, key)
    ensures a == b
  {
  }

  /** What `initializeToken` yields: the token and the session table with the
      new row, or the RuntimeError it raises when signing fails. */
  datatype Issuance = Issued(token: Token, sessions: multiset<UserId>) | SigningFailed

  /** `initializeToken(user)`: sign a token for the user's id, then insert one
      session row for the user. Signing fails, before any row is written,
      when the secret is unset. */
  function InitializeToken(sessions: multiset<UserId>, u: UserId, secret: Option<string>): (r: Issuance)
    ensures r.SigningFailed? <==> secret.None?
    ensures r.Issued? ==> r.sessions == sessions + multiset{u}
    ensures r.Issued? ==> Decode(r.token, secret) == Claims(u)
  {
    match secret
    case None => SigningFailed
    case Some(key) => Issued(Encode(u, key), sessions + multiset{u})
  }

  /** What `verifyToken` returns: False, the decoded id, or the exception
      `jwt.decode` raised (the `decode_token == False` test after it is dead). */
  datatype TokenCheck = Refused | Resolved(id: UserId) | DecodeFailed

  /** `verifyToken(request)` on the request's `token` cookie. */
  function VerifyToken(sessions: multiset<UserId>, cookie: Option<Token>, secret: Option<string>): (r: TokenCheck)
    ensures cookie.None? ==> r == Refused
    ensures r == DecodeFailed <==> cookie.Some? && Decode(cookie.value, secret) == DecodeError
    ensures forall id :: r == Resolved(id) <==>
      cookie.Some? && Decode(cookie.value, secret) == Claims(id) && sessions[id] > 0
  {
    match cookie
    case None => Refused
    case Some(t) =>
      match Decode(t, secret)
      case DecodeError => DecodeFailed
      case Claims(id) => if sessions[id] == 0 then Refused else Resolved(id)
  }

  /** Round trip: the token `initializeToken` returns verifies, against the
      session table it returns, to the user it was issued for. */
  lemma IssuedTokenVerifies(sessions: multiset<UserId>, u: UserId, secret: Option<string>)
    requires InitializeToken(sessions, u, secret).Issued?
    ensures var r := InitializeToken(sessions, u, secret);
            VerifyToken(r.sessions, Some(r.token), secret) == Resolved(u)
  {
  }

  /** Deleting every session row of `u` makes every token for `u` refused, and
      leaves the answer for every other user's token as it was. */
  lemma RevokedSessionsRefuse(sessions: multiset<UserId>, u: UserId, cookie: Option<Token>, secret: Option<string>)
    ensures VerifyToken(sessions[u := 0], cookie, secret) != Resolved(u)
    ensures cookie.Some? && Decode(cookie.value, secret) != Claims(u) ==>
      VerifyToken(sessions[u := 0], cookie, secret) == VerifyToken(sessions, cookie, secret)
  {
  }
}
