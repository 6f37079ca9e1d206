/** Properties that relate several endpoints: the store invariant every
    transition keeps, which endpoints may touch the session table, and the
    account and note scenarios the service is meant to support (or, as written, does not). */
module Invariants {
  import opened Types
  import opened Models
  import opened ApiResponse
  import opened Sessions
  import opened Guard
  import opened UserViews
  import opened NoteViews

  /** The referential state the database keeps: e-mails are unique, every
      note's owner and collaborators are registered users, and every session
      row points at a registered user. */
  ghost predicate Consistent(st: Store) {
    && EmailsUnique(st.users)
    && (forall id :: id in st.notes ==> st.notes[id].owner in st.users && st.notes[id].collaborators <= st.users.Keys)
    && (forall u :: u in st.sessions ==> u in st.users)
  }

  /** Registration keeps e-mails unique: a second registration with a taken
      e-mail never adds a row. */
  lemma RegisterKeepsConsistent(st: Store, sv: Services, req: RegisterRequest, newId: UserId)
    requires Consistent(st)
    ensures Consistent(Register(st, sv, req, newId).store)
  {
  }

  lemma LoginKeepsConsistent(st: Store, sv: Services, parsed: Validation<Credentials>)
    requires Consistent(st)
    ensures Consistent(Login(st, sv, parsed).store)
  {
  }

  lemma LogoutKeepsConsistent(st: Store, sv: Services, cookie: Option<Token>)
    requires Consistent(st)
    ensures Consistent(Logout(st, sv, cookie).store)
  {
  }

  lemma CreateNoteKeepsConsistent(st: Store, sv: Services, cookie: Option<Token>, req: CreateRequest, newId: NoteId)
    requires Consistent(st)
    ensures Consistent(CreateNote(st, sv, cookie, req, newId).store)
  {
  }

  lemma UpdateNoteKeepsConsistent(st: Store, sv: Services, cookie: Option<Token>, parsed: Validation<UpdateRequest>)
    requires Consistent(st)
    ensures Consistent(UpdateNote(st, sv, cookie, parsed).store)
  {
  }

  lemma DeleteNoteKeepsConsistent(st: Store, sv: Services, cookie: Option<Token>, parsed: Validation<NoteId>)
    requires Consistent(st)
    ensures Consistent(DeleteNote(st, sv, cookie, parsed).store)
  {
  }

  lemma ChangeCollaboratorKeepsConsistent(st: Store, sv: Services, cookie: Option<Token>, change: Change,
                                          parsed: Validation<CollaboratorRequest>)
    requires Consistent(st)
    ensures Consistent(ChangeCollaborator(st, sv, cookie, change, parsed).store)
  {
  }

  /** In a consistent store a caller holding a live session is always
      resolved: the "user row missing" 401 cannot happen. */
  lemma LiveSessionAuthenticates(st: Store, cookie: Option<Token>, secret: Option<string>)
    requires Consistent(st)
    requires VerifyToken(st.sessions, cookie, secret).Resolved?
    ensures Authenticate(st, cookie, secret) == Authenticated(VerifyToken(st.sessions, cookie, secret).id)
  {
  }

  /** Only login and logout write the session table. */
  lemma OtherEndpointsKeepSessions(st: Store, sv: Services, cookie: Option<Token>, reg: RegisterRequest, uid: UserId,
                                   create: CreateRequest, nid: NoteId, upd: Validation<UpdateRequest>,
                                   del: Validation<NoteId>, change: Change, col: Validation<CollaboratorRequest>)
    ensures Register(st, sv, reg, uid).store.sessions == st.sessions
    ensures CreateNote(st, sv, cookie, create, nid).store.sessions == st.sessions
    ensures UpdateNote(st, sv, cookie, upd).store.sessions == st.sessions
    ensures DeleteNote(st, sv, cookie, del).store.sessions == st.sessions
    ensures ChangeCollaborator(st, sv, cookie, change, col).store.sessions == st.sessions
  {
  }

  /** After a logout, the token that was used is refused by every
      authenticated endpoint (401, nothing written), and so is any other token
      for the same user. */
  lemma LogoutRevokesToken(st: Store, sv: Services, cookie: Option<Token>, other: Option<Token>)
    requires Authenticate(st, cookie, sv.secret).Authenticated?
    requires other.Some? && Decode(other.value, sv.secret) == Claims(Authenticate(st, cookie, sv.secret).id)
    ensures var st' := Logout(st, sv, cookie).store;
            && Authenticate(st', cookie, sv.secret) == Unauthenticated
            && Authenticate(st', other, sv.secret) == Unauthenticated
  {
  }

  /** A revocation lasts until the user logs in again: with no session rows
      for `u`, a logout by anyone leaves `u` without rows, and a login leaves
      `u` without rows unless it is a login as `u`. Together with
      `OtherEndpointsKeepSessions`, no sequence of calls without a login as
      `u` lets a token of `u` authenticate again (`RevokedSessionsRefuse`). */
  lemma RevocationLastsUntilLogin(st: Store, sv: Services, u: UserId, cookie: Option<Token>, creds: Validation<Credentials>)
    requires st.sessions[u] == 0
    ensures Logout(st, sv, cookie).store.sessions[u] == 0
    ensures Login(st, sv, creds).store.sessions[u] != 0 ==>
              creds.Valid? && GetByEmail(st.users, creds.value.email) == Found(u) && Succeeded(Login(st, sv, creds).reply)
  {
  }

  /** A fresh registration can log in with its password, and the token set
      in the cookie authenticates the new user. */
  lemma RegisterThenLogin(st: Store, sv: Services, req: RegisterRequest, newId: UserId)
    requires Consistent(st) && SoundHashing(sv) && sv.secret.Some?
    requires Succeeded(Register(st, sv, req, newId).reply)
    ensures var st1 := Register(st, sv, req, newId).store;
            var out := Login(st1, sv, Valid(Credentials(req.email.value, req.password.value)));
            && Succeeded(out.reply)
            && Authenticate(out.store, Some(out.reply.response.cookies.cookie.value), sv.secret) == Authenticated(newId)
  {
  }

  /** A fresh registration can be looked up by its e-mail: the lookup answers
      200 with exactly the row that was inserted. */
  lemma RegisterThenLookup(st: Store, sv: Services, req: RegisterRequest, newId: UserId)
    requires Consistent(st)
    requires Succeeded(Register(st, sv, req, newId).reply)
    ensures var st1 := Register(st, sv, req, newId).store;
            var out := GetUser(st1, Valid(req.email.value));
            && Succeeded(out.reply)
            && out.reply.response.body.data == Some(UserRow(newId, st1.users[newId]))
  {
  }

  /** Login answers an unknown e-mail and a wrong password identically. */
  lemma LoginDoesNotRevealAccounts(st1: Store, st2: Store, sv: Services, creds: Credentials)
    requires EmailFree(st1.users, creds.email)
    requires GetByEmail(st2.users, creds.email).Found?
    requires !sv.checkpw(creds.password, st2.users[GetByEmail(st2.users, creds.email).id].password)
    ensures Login(st1, sv, Valid(creds)).reply == Login(st2, sv, Valid(creds)).reply
  {
  }

  /** As written, resubmitting the same update with an empty upload list is
      accepted again: the no-op test fires only when `files` is None. */
  lemma ResubmittedUpdateAccepted(st: Store, sv: Services, cookie: Option<Token>, req: UpdateRequest)
    requires req.files == Some([])
    requires Succeeded(UpdateNote(st, sv, cookie, Valid(req)).reply)
    ensures var st1 := UpdateNote(st, sv, cookie, Valid(req)).store;
            Succeeded(UpdateNote(st1, sv, cookie, Valid(req)).reply)
  {
  }

  /** A 409 "no changes" reply can only come from a request without files. */
  lemma NoChangesOnlyWithoutFiles(st: Store, sv: Services, cookie: Option<Token>, req: UpdateRequest)
    requires UpdateNote(st, sv, cookie, Valid(req)).reply == Api(Fail(409, NoChangesFound))
    ensures req.files == None
  {
  }

  /** The owner can end up among the collaborators: nothing in
      `add_remove_collaborator` stops a collaborator from adding the owner. */
  lemma OwnerCanBecomeCollaborator(sv: Services)
    requires sv.secret == Some("k")
    ensures var note := Note("a", "T", "body", [], {"b"});
            var st := Store(map["a" := User("Ann", "ann@x.com", "", ""), "b" := User("Bob", "bob@x.com", "", "")],
                            map["n" := note], multiset{"b"});
            var out := ChangeCollaborator(st, sv, Some(Signed("b", "k")), Add, Valid(CollaboratorRequest("n", "a")));
            && Consistent(st)
            && Succeeded(out.reply)
            && Consistent(out.store)
            && out.store.notes["n"].owner in out.store.notes["n"].collaborators
  {
  }
}
