# Notes backend: authorization and collaboration model

This project models the core of a multi-user note-taking backend. Users register, log in and log out. They create notes that hold a title, a body and attached media URLs, and they share notes with collaborators, who may edit them. Each HTTP endpoint is a pure transition over one immutable store: users by id, notes by id, and the session table as a multiset of user ids. A transition returns the reply the client sees and the store afterwards.

The reply is either an envelope or `Unhandled`. Almost every envelope comes from the shared response builder; the logout view builds its own, with the same fields, and deletes the cookie. `Unhandled` stands for an exception that escapes the view, which the framework answers with its own 500 page.

Layout, one module per file:

- `types.dfy` (`Types`): identifiers, uploaded files, validator outcomes, tokens. The foreign services are fields of `Services`: object-storage upload, bcrypt hash and check, the e-mail grammar and the JWT secret.
- `models.dfy` (`Models`): the `User`, `Note` and `Store` rows, and the `User.objects.get(email=…)` lookup.
- `api_response.dfy` (`ApiResponse`): the response envelope and the `token` cookie.
- `sessions.dfy` (`Sessions`): `initializeToken` and `verifyToken` over the session allow-list. HS256 is abstracted to "a token decodes only under the key it was signed with".
- `note_validators.dfy` and `user_validators.dfy`: the request validators, as pure functions.
- `guard.dfy` (`Guard`): the prelude every authenticated view runs, which is `verifyToken` followed by the user lookup.
- `user_views.dfy` (`UserViews`) and `note_views.dfy` (`NoteViews`): the endpoints.
- `invariants.dfy` (`Invariants`): the store invariant, and lemmas that span several endpoints.

Where the code does not do what the service is meant to do, the model follows the code:

- A note's owner is meant to be kept apart from its collaborators. The code does not guarantee this: `add_remove_collaborator` only refuses target = caller, and `create_note` accepts the caller among the collaborators. `Invariants.OwnerCanBecomeCollaborator` builds a consistent store in which a collaborator adds the owner, and the result is still consistent.
- An identical update resubmitted with no new files is meant to be refused with 409. In the code, the no-op test requires `files` to be None. `Invariants.ResubmittedUpdateAccepted` shows that an identical resubmission with an empty upload list succeeds again.
- A PUT whose `files` is None but which is not a no-op reaches `len(None)`. That raises inside the try block, so the reply is 500.
- Passwords are meant to have a minimum length. The code enforces none, and neither does the model.
- Login refuses bad credentials with 409, as the code does.
- `notes/models.py` declares no owner column, yet the views write and read `user`. `Note.owner` models that field.

## Model

| member | source | states |
|---|---|---|
| `Types.UploadAll` | apis/views/note_views.py:64-70 | the uploaded URLs correspond one-to-one, in order, to the uploaded files |
| `Models.UsersWithEmail` | apis/views/user_views.py:38 | `filter(email=…)` finds only registered users; it is empty exactly when the e-mail is free; under the unique constraint it finds at most one user |
| `Models.GetByEmail` | apis/views/user_views.py:76-78 | `get(email=…)`: missing iff no user has the e-mail; a found user is the only one with it; an ambiguous result breaks e-mail uniqueness |
| `ApiResponse.APIResponse` | apis/utils/api_response.py:6-31 | `data` only on success, `error` only on failure; `statusCode` equals the HTTP status; `success` and `message` echoed; a `token` cookie (httponly, not secure, Lax) set iff a token is passed |
| `Sessions.Decode` | auth_sessions/utils.py:33 | a token decodes to an id iff it was encoded with that id under the configured secret |
| `Sessions.EncodeInjective` | auth_sessions/utils.py:12-14 | distinct user ids never share a token |
| `Sessions.InitializeToken` | auth_sessions/utils.py:9-21 | fails iff the secret is unset, and then writes nothing; otherwise adds exactly one session row for the user and returns a token whose payload is the user's id |
| `Sessions.VerifyToken` | auth_sessions/utils.py:24-46 | no cookie gives False; a token that does not decode raises; a decoded id is returned iff at least one session row of that id exists, however many |
| `Sessions.IssuedTokenVerifies` | auth_sessions/utils.py:9-46 | round trip: the issued token verifies to the user it was issued for |
| `Sessions.RevokedSessionsRefuse` | auth_sessions/utils.py:40-43 | once a user's session rows are gone, no token resolves to that user, and other users' tokens resolve as before |
| `Guard.Authenticate` | apis/views/note_views.py:22-32 | the caller is resolved iff the token verifies to an id that is a registered user; a decoder exception is kept apart; no cookie means unauthenticated |
| `Guard.Rejection` | apis/views/note_views.py:25-32 | an unresolved caller gets 401 "Unauthorized" and a decoder exception escapes; nothing is written |
| `Guard.ValidationRejection` | apis/views/note_views.py:45-46 | a ValidationError gives 400 with its issue list, another validator exception escapes; nothing is written |
| `NoteValidators.FileError` | apis/validators/note_validators.py:49-56 | a file passes iff its type is on the allow-list and it is at most 25 MiB; a bad type is reported as a type error whatever the size |
| `NoteValidators.ValidateFiles` | apis/validators/note_validators.py:43-58 | accepted iff every file passes, and then returned unchanged; on rejection the error is the first failing file's |
| `NoteValidators.ValidateCreateNote` | apis/validators/note_validators.py:37-41 | valid iff a title of at most 300 characters, a body, and acceptable files; collaborators pass through, None when absent; a long title and a file error are both reported |
| `NoteValidators.AttachmentSizeBoundary` | apis/validators/note_validators.py:55-56 | 26,214,400 bytes are accepted and 26,214,401 rejected |
| `NoteValidators.NoFilesAccepted` | apis/validators/note_validators.py:49-58 | an empty file list is accepted |
| `UserValidators.ValidateProfilePicture` | apis/validators/user_validators.py:12-22 | accepted iff JPEG or PNG and at most 5 MiB, returned unchanged; a wrong type is a type error whatever the size |
| `UserValidators.ValidateCreateUser` | apis/validators/user_validators.py:6-22 | a missing picture raises instead of failing validation; valid iff every field is present, the e-mail is well-formed and the picture passes |
| `UserValidators.PictureSizeBoundary` | apis/validators/user_validators.py:19-20 | for PNG and JPEG alike, 5,242,880 bytes are accepted and 5,242,881 rejected |
| `UserValidators.PictureRulesTighterThanAttachments` | apis/validators/user_validators.py:15-20 | every acceptable profile picture is also an acceptable note attachment |
| `UserViews.Register` | apis/views/user_views.py:21-63 | a taken e-mail gives 409 and no write; success (201) iff valid, e-mail free and key fresh; it adds exactly one user with the given name and e-mail, the hashed password and the uploaded picture URL; the session table is never written; every envelope it returns is well-formed |
| `UserViews.GetUser` | apis/views/user_views.py:65-91 | never writes; 404 when no user has the e-mail; 200 with that user's row when one has it (always, under e-mail uniqueness); every envelope it returns is well-formed |
| `UserViews.Login` | apis/views/user_views.py:94-121 | unknown e-mail and wrong password get the identical 409; success iff the password checks and the secret is set; it adds exactly one session row and sets a cookie whose token decodes to the user; every envelope it returns is well-formed |
| `UserViews.Logout` | apis/views/user_views.py:124-163 | an unresolved caller gets 401; otherwise every session row of the caller goes, other users' rows, users and notes stay, and the cookie is deleted; every envelope it returns is well-formed |
| `NoteViews.UnresolvedIds` | apis/views/note_views.py:50-57 | exactly the supplied ids that name no user |
| `NoteViews.UnresolvedIdsConcat` | apis/views/note_views.py:53-57 | the collection is an order-keeping filter: it distributes over concatenation |
| `NoteViews.PyJoin` | apis/views/note_views.py:61 | `str.join` succeeds iff every item is a string |
| `NoteViews.PyJoinOfStrings` | apis/views/note_views.py:61 | on strings, `str.join` is the plain separator join |
| `NoteViews.UnresolvedCollaborators` | apis/views/note_views.py:59-62 | the intended reply: 409 listing the unresolved ids in input order |
| `NoteViews.UnresolvedCollaboratorsAsWritten` | apis/views/note_views.py:59-62 | as written, any unresolved id gives 500 |
| `NoteViews.UnresolvedCollaboratorsDiscrepancy` | apis/views/note_views.py:59-62 | for every request with an unresolved id, the code answers 500 where 409 is meant |
| `NoteViews.CreateNote` | apis/views/note_views.py:19-88 | unresolved caller: 401 and no write; unresolved collaborator ids: 409 naming them and no note added; success adds exactly one note, owned by the caller, with the uploads in order and exactly the supplied collaborators; the session table is never written; every envelope it returns is well-formed |
| `NoteViews.UpdateAccess` | apis/views/note_views.py:131-134 | intended permission: granted iff the caller owns or collaborates on the note |
| `NoteViews.UpdateAccessAsWritten` | apis/views/note_views.py:131-134 | as written: granted iff the caller is the owner, and anyone else makes the test raise |
| `NoteViews.CollaboratorUpdateDiscrepancy` | apis/views/note_views.py:131-134 | a collaborator who is not the owner is admitted by the intended test and makes the written one raise |
| `NoteViews.UpdateNote` | apis/views/note_views.py:93-178 | checks in order: 404 missing note, 401 neither owner nor collaborator, 409 no-op; each refusal leaves the store unchanged; success overwrites title and body, sets files to retained URLs followed by the new uploads, and keeps owner, collaborators and other notes; the session table is never written; every envelope it returns is well-formed |
| `NoteViews.DeleteNote` | apis/views/note_views.py:180-206 | 404 for a missing note, 401 for anyone but the owner, with the note kept; the owner's call removes exactly that note; the session table is never written; every envelope it returns is well-formed |
| `NoteViews.VisibleTo` | apis/views/note_views.py:228-229 | exactly the notes the user owns or collaborates on |
| `NoteViews.ListVisible` | apis/views/note_views.py:228-230 | lists each visible note once, with its stored row, and nothing else |
| `NoteViews.GetNotes` | apis/views/note_views.py:210-240 | never writes; unresolved caller: 401; otherwise 200 with exactly the caller's visible notes, each once; every envelope it returns is well-formed |
| `NoteViews.VisibleExactlyWhenUpdatable` | apis/views/note_views.py:131-134 | a user sees exactly the notes the user may update |
| `NoteViews.ChangeCollaborator` | apis/views/note_views.py:243-298 | checks in order: 404 note, 404 target user, 409 target = caller; add refuses an existing collaborator, remove a non-collaborator; success only gains or loses the target, nothing else changes; the session table is never written; every envelope it returns is well-formed |
| `Invariants.RegisterKeepsConsistent` | users/models.py:10 | registration keeps e-mails unique and references intact |
| `Invariants.LoginKeepsConsistent` | auth_sessions/models.py:10 | every new session row points at a registered user |
| `Invariants.LogoutKeepsConsistent` | apis/views/user_views.py:141 | logout keeps the store consistent |
| `Invariants.CreateNoteKeepsConsistent` | apis/views/note_views.py:73-84 | a new note's owner and collaborators are registered users |
| `Invariants.UpdateNoteKeepsConsistent` | apis/views/note_views.py:160-173 | updates keep references intact |
| `Invariants.DeleteNoteKeepsConsistent` | apis/views/note_views.py:201 | deletion keeps references intact |
| `Invariants.ChangeCollaboratorKeepsConsistent` | apis/views/note_views.py:289-297 | only registered users become collaborators |
| `Invariants.LiveSessionAuthenticates` | apis/views/note_views.py:101-105 | in a consistent store, a live session always resolves to its user |
| `Invariants.OtherEndpointsKeepSessions` | auth_sessions/utils.py:17 | only login and logout write the session table |
| `Invariants.LogoutRevokesToken` | apis/views/user_views.py:139-141 | immediately after logout, the old token and any other token of the user are refused |
| `Invariants.RevocationLastsUntilLogin` | apis/views/user_views.py:94-163 | a user without session rows stays without them across any logout and any login other than a successful login as that user; with `OtherEndpointsKeepSessions`, a revoked token stays refused until the user logs in again |
| `Invariants.RegisterThenLogin` | apis/views/user_views.py:42-61 | a fresh registration logs in with its password, and the cookie's token authenticates the new user |
| `Invariants.RegisterThenLookup` | apis/views/user_views.py:65-91 | a fresh registration is found by its e-mail, and the lookup returns exactly the inserted row |
| `Invariants.LoginDoesNotRevealAccounts` | apis/views/user_views.py:102-114 | an unknown e-mail and a wrong password get the same reply |
| `Invariants.ResubmittedUpdateAccepted` | apis/views/note_views.py:140-146 | an identical resubmission with an empty upload list is accepted again |
| `Invariants.NoChangesOnlyWithoutFiles` | apis/views/note_views.py:144 | the no-op 409 arises only when `files` is None |
| `Invariants.OwnerCanBecomeCollaborator` | apis/views/note_views.py:279-289 | a collaborator can add the owner, so the owner can be a collaborator |

## Findings

| source | as written | input that shows it | evidently intended | confidence | as-written member | corrected member |
|---|---|---|---|---|---|---|
| apis/views/note_views.py:59-62 | `', '.join(invalid_ids)` joins the UUID objects that the validator made of the ids; `str.join` raises TypeError, and `except Exception` answers 500 | create a note with one collaborator id that names no user | 409 "Invalid collaborator ID(s): …" listing the ids | not executed; high | `NoteViews.UnresolvedCollaboratorsAsWritten` | `NoteViews.UnresolvedCollaborators` |
| apis/views/note_views.py:131-134 | `found_user.id not in found_note.collaborators` applies `in` to the note's related manager, which is not iterable; outside any try, every caller other than the owner raises TypeError | a collaborator who is not the owner sends a PUT | owners and collaborators may update; others get 401 | not executed; medium | `NoteViews.UpdateAccessAsWritten` | `NoteViews.UpdateAccess` |

`NoteViews.CreateNote` and `NoteViews.UpdateNote` use the corrected members. `NoteViews.UnresolvedCollaboratorsDiscrepancy` and `NoteViews.CollaboratorUpdateDiscrepancy` exhibit the two discrepancies.

## Left out

- Object storage (cloudinary) is the uninterpreted `Services.upload`. Upload failures, which the views answer with 500, are not modelled.
- bcrypt is the pair `Services.hash` / `Services.checkpw`; `SoundHashing` states that a password checks against its own hash. The random salt is not modelled.
- JWT HS256 is abstracted: a token records its claim and its signing key. The source sets no expiry, and the model has none.
- Failures of the database, the upload service or hashing (the `except Exception` → 500 paths) are not modelled. The 500s that follow from the code and the inputs are modelled: `UserViews.Register` and `NoteViews.CreateNote` when the fresh primary key is already in use; `UserViews.Login` when the JWT secret is unset, since `jwt.encode` then raises inside `initializeToken` and the login view's `except Exception` answers 500; and `NoteViews.UpdateNote` when `files` is None on a request that is not a no-op (`len(None)`). The 500 that `create_note` gives as written for unresolved collaborator ids is modelled only by `NoteViews.UnresolvedCollaboratorsAsWritten`; `NoteViews.CreateNote` answers 409 there.
- Timestamps (`created_at`, `updated_at`, `meta.timestamp`) are clock readings.
- The e-mail grammar and normalisation of pydantic's `EmailStr` are reduced to the predicate `Services.isEmail`.
- Pydantic's error records keep only the field and the message: no `loc`/`type`/`input` members and no "Value error, " prefix.
- UUID parsing of ids (URL converters, `list[UUID]`) is not modelled; ids arrive parsed.
- `UpdateNoteValidator`, `DeleteNoteValidator`, `AddRemoveCollaboratorValidator`, `LoginValidator` and `GetUserValidator` are not part of this model. Their outputs are the `Validation<…>` inputs of the views.
- Delete calls `save()` right after `delete()` (apis/views/note_views.py:201-202). Its ORM re-insert is not modelled; deletion is plain removal.
- HTTP method dispatch, 405 answers, routing, request parsing (form vs JSON) and serializers are framework declarations and are not modelled. Listed notes are returned as their stored rows, and the user lookup returns the whole user row, as `fields = '__all__'` does.
- Column lengths other than the title bound (name 50, e-mail 254, URLs and password 300) are enforced only by some databases and are not modelled.
- No endpoint deletes users, so the cascades from a user deletion are not modelled.
- Concurrent requests and lost updates are not modelled; each transition is atomic.
- NoteValidators.ValidateCreateNote: states which fields are reported, that a long title comes first and that a file error is included, but not the complete order of the issue list.
- NoteViews.GetNotes: the order of the listed notes is unspecified, as the query sets none.
- NoteViews.UpdateNote: uses set-level collaborator membership (the corrected permission test), not the raising test as written; see Findings.
- NoteViews.CreateNote: answers 409 for unresolved collaborator ids (the corrected reply), not the 500 as written; see Findings.
