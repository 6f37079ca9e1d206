/** The note endpoints as transitions of the store: `create_note`,
    `update_note` (PUT and DELETE), `get_notes` and `add_remove_collaborator`.
    Each runs the authentication prelude first, then its own checks in a
    fixed order; every rejection leaves the store as it was. The update,
    delete and collaborator validators are not part of this model: their
    parsed outputs are inputs here. */
module NoteViews {
  import opened Types
  import opened Models
  import opened ApiResponse
  import opened Sessions
  import opened Guard
  import opened NoteValidators

  const NoteCreated := "Note has been created successfully."
  const CreateInternalError := "Internal Server Error."
  const InternalError := "Internal server error."
  const NoteNotFound := "Note not found with this id."
  const NotAllowedToUpdate := "You are not authorized to update this note."
  const NoChangesFound := "No changes found to update."
  const NoteUpdated := "Note has been updated."
  const NoteDeleted := "Note has been deleted."
  const NotesFetched := "Notes have been fetched."
  const NoNoteWithId := "No note found with this id."
  const NoUserWithId := "No user found with this id."
  const CannotChangeSelf := "Can not make changes of yourself."
  const AlreadyCollaborator := "This user is already a collaborator."
  const NotACollaborator := "This user is not a collaborator."
  const CollaboratorAdded := "This user has been added as a collaborator."
  const CollaboratorRemoved := "This user has been removed from a collaborator."
  const InvalidIdsPrefix := "Invalid collaborator ID(s): "

  // ---------------------------------------------------------------- create

  /** The form fields of a note creation. The collaborator list is what
      `getlist` returns: empty when the field is absent. */
  datatype CreateRequest = CreateRequest(title: Option<string>, note: Option<string>,
                                         files: seq<UploadedFile>, collaborators: seq<UserId>)

  function ValidateCreateRequest(req: CreateRequest): Validation<NoteFields> {
    ValidateCreateNote(req.title, req.note, req.files, Some(req.collaborators))
  }

  /** The supplied collaborator ids that name no registered user, in input
      order and with repetitions, as the view's loop collects them. */
  function UnresolvedIds(users: map<UserId, User>, ids: seq<UserId>): (r: seq<UserId>)
    ensures forall x :: x in r <==> x in ids && x !in users
    ensures |r| <= |ids|
  {
    if |ids| == 0 then []
    else (if ids[0] in users then [] else [ids[0]]) + UnresolvedIds(users, ids[1..])
  }

  lemma AppendAssociative(x: seq<UserId>, y: seq<UserId>, z: seq<UserId>)
    ensures x + (y + z) == (x + y) + z
  {
  }

  /** One step of the filter: the first id is kept exactly when it names no user. */
  lemma UnresolvedIdsCons(users: map<UserId, User>, x: UserId, s: seq<UserId>)
    ensures UnresolvedIds(users, [x] + s) == (if x in users then [] else [x]) + UnresolvedIds(users, s)
  {
    assert ([x] + s)[1..] == s;
  }

  /** The collection is a filter: it distributes over concatenation, so the
      unresolved ids keep their input order. */
  lemma {:induction false} UnresolvedIdsConcat(users: map<UserId, User>, a: seq<UserId>, b: seq<UserId>)
    ensures UnresolvedIds(users, a + b) == UnresolvedIds(users, a) + UnresolvedIds(users, b)
  {
    if |a| == 0 {
      assert a + b == b;
    } else {
      var t := a[1..];
      var head := if a[0] in users then [] else [a[0]];
      assert a == [a[0]] + t;
      assert a + b == [a[0]] + (t + b);
      UnresolvedIdsCons(users, a[0], t + b);
      UnresolvedIdsCons(users, a[0], t);
      UnresolvedIdsConcat(users, t, b);
      AppendAssociative(head, UnresolvedIds(users, t), UnresolvedIds(users, b));
    }
  }

  /** `sep.join(parts)` on strings. */
  function Join(sep: string, parts: seq<string>): string {
    if |parts| == 0 then ""
    else if |parts| == 1 then parts[0]
    else parts[0] + sep + Join(sep, parts[1..])
  }

  /** The two kinds of item `str.join` meets in `create_note`: strings, and
      the UUID objects pydantic makes of a `list[UUID]` field. */
  datatype PyItem = PyStr(s: string) | PyUuid(id: UserId)

  /** `sep.join(items)` as Python evaluates it: TypeError (None here) as soon
      as an item is not a string. */
  function PyJoin(sep: string, items: seq<PyItem>): (r: Option<string>)
    ensures r.Some? <==> forall i :: 0 <= i < |items| ==> items[i].PyStr?
  {
    if |items| == 0 then Some("")
    else if !items[0].PyStr? then None
    else if |items| == 1 then Some(items[0].s)
    else
      match PyJoin(sep, items[1..])
      case None => None
      case Some(rest) => Some(items[0].s + sep + rest)
  }

  function AsStrings(ids: seq<UserId>): seq<PyItem> {
    seq(|ids|, i requires 0 <= i < |ids| => PyStr(ids[i]))
  }

  function AsUuids(ids: seq<UserId>): seq<PyItem> {
    seq(|ids|, i requires 0 <= i < |ids| => PyUuid(ids[i]))
  }

  /** Joining string items is the plain string join. */
  lemma {:induction false} PyJoinOfStrings(sep: string, ids: seq<UserId>)
    ensures PyJoin(sep, AsStrings(ids)) == Some(Join(sep, ids))
  {
    if |ids| > 1 {
      assert AsStrings(ids)[1..] == AsStrings(ids[1..]);
      PyJoinOfStrings(sep, ids[1..]);
    }
  }

  /** The reply `create_note` means to send for unresolved collaborator ids:
      409 naming them, in input order, joined by ", ". */
  function UnresolvedCollaborators(ids: seq<UserId>): (r: Reply)
    ensures r == Api(Fail(409, InvalidIdsPrefix + Join(", ", ids)))
  {
    PyJoinOfStrings(", ", ids);
    match PyJoin(", ", AsStrings(ids))
    case Some(m) => Api(Fail(409, InvalidIdsPrefix + m))
    case None => Api(Fail(500, CreateInternalError))
  }

  /** The same reply as the source builds it: the ids are UUID objects, so the
      join raises TypeError and the enclosing `except Exception` answers 500. */
  function UnresolvedCollaboratorsAsWritten(ids: seq<UserId>): (r: Reply)
    ensures |ids| > 0 ==> r == Api(Fail(500, CreateInternalError))
  {
    assert |ids| > 0 ==> !AsUuids(ids)[0].PyStr?;
    match PyJoin(", ", AsUuids(ids))
    case Some(m) => Api(Fail(409, InvalidIdsPrefix + m))
    case None => Api(Fail(500, CreateInternalError))
  }

  /** Whenever there is an unresolved id, the view as written answers 500
      where a 409 listing the ids is meant. */
  lemma UnresolvedCollaboratorsDiscrepancy(users: map<UserId, User>, ids: seq<UserId>)
    requires UnresolvedIds(users, ids) != []
    ensures Status(UnresolvedCollaboratorsAsWritten(UnresolvedIds(users, ids))) == 500
    ensures Status(UnresolvedCollaborators(UnresolvedIds(users, ids))) == 409
  {
  }

  /** `create_note`: authenticate, validate, refuse unresolved collaborator
      ids, upload the files in order, then insert the note under the fresh
      primary key `newId` with the caller as owner (a key already in use makes
      the insert fail, which the view answers with 500). */
  function CreateNote(st: Store, sv: Services, cookie: Option<Token>, req: CreateRequest, newId: NoteId): (out: Outcome)
    ensures out.reply.Api? ==> WellFormed(out.reply.response)
    ensures out.store.sessions == st.sessions
    ensures var c := Authenticate(st, cookie, sv.secret);
            !c.Authenticated? ==> out == Rejection(st, c)
    ensures var c := Authenticate(st, cookie, sv.secret); var v := ValidateCreateRequest(req);
            c.Authenticated? && !v.Valid? ==> out == ValidationRejection(st, v)
    ensures !Succeeded(out.reply) ==> out.store == st
    ensures var c := Authenticate(st, cookie, sv.secret); var v := ValidateCreateRequest(req);
            var unresolved := UnresolvedIds(st.users, req.collaborators);
            c.Authenticated? && v.Valid? && unresolved != [] ==>
              out == Outcome(UnresolvedCollaborators(unresolved), st)
    ensures var c := Authenticate(st, cookie, sv.secret); var v := ValidateCreateRequest(req);
            Succeeded(out.reply) <==>
              c.Authenticated? && v.Valid? && UnresolvedIds(st.users, req.collaborators) == [] && newId !in st.notes
    ensures Succeeded(out.reply) ==>
              && Status(out.reply) == 200
              && newId !in st.notes
              && newId in out.store.notes
              && out.store == st.(notes := st.notes[newId := out.store.notes[newId]])
              && var n := out.store.notes[newId];
                 && n.owner == Authenticate(st, cookie, sv.secret).id
                 && n.title == req.title.value
                 && n.body == req.note.value
                 && n.files == UploadAll(sv.upload, req.files)
                 && (forall x :: x in n.collaborators <==> x in req.collaborators)
  {
    var c := Authenticate(st, cookie, sv.secret);
    if !c.Authenticated? then
      Rejection(st, c)
    else
      var v := ValidateCreateRequest(req);
      if !v.Valid? then
        ValidationRejection(st, v)
      else
        var d := v.value;
        var unresolved := if d.collaborators.Some? then UnresolvedIds(st.users, d.collaborators.value) else [];
        if unresolved != [] then
          Outcome(UnresolvedCollaborators(unresolved), st)
        else if newId in st.notes then
          Outcome(Api(Fail(500, CreateInternalError)), st)
        else
          var collaborators := if d.collaborators.Some? then set x | x in d.collaborators.value && x in st.users else {};
          var n := Note(c.id, d.title, d.note, UploadAll(sv.upload, d.files), collaborators);
          Outcome(Api(Done(200, NoteCreated)), st.(notes := st.notes[newId := n]))
  }

  // ---------------------------------------------------------------- update

  /** The parsed body of a PUT: the retained URLs, and the newly uploaded
      files (None is kept distinct from an empty list, as the no-op test
      distinguishes them). */
  datatype UpdateRequest = UpdateRequest(noteId: NoteId, title: string, note: string,
                                         filesUrls: seq<Url>, files: Option<seq<UploadedFile>>)

  /** The no-op test of the PUT branch, literally: same title, same body, same
      URL list, and `files` is None. */
  predicate NoChanges(req: UpdateRequest, n: Note) {
    req.title == n.title && req.note == n.body && req.filesUrls == n.files && req.files == None
  }

  /** The outcome of the PUT branch's permission test. */
  datatype AccessCheck = Granted | Denied | AccessRaised

  /** The permission test with its evident meaning: the owner and the
      collaborators may update. */
  function UpdateAccess(caller: UserId, n: Note): (r: AccessCheck)
    ensures r != AccessRaised
    ensures r == Granted <==> OwnsOrCollaborates(caller, n)
  {
    if caller != n.owner && caller !in n.collaborators then Denied else Granted
  }

  /** The permission test as written: for a caller other than the owner, the
      `not in` operand is the related manager of the note, which is not
      iterable, so the test raises TypeError outside any try. */
  function UpdateAccessAsWritten(caller: UserId, n: Note): (r: AccessCheck)
    ensures r != Denied
    ensures r == Granted <==> caller == n.owner
  {
    if caller != n.owner then AccessRaised else Granted
  }

  /** A collaborator who is not the owner is let in by the intended test and
      makes the written one raise. */
  lemma CollaboratorUpdateDiscrepancy(caller: UserId, n: Note)
    requires caller in n.collaborators && caller != n.owner
    ensures UpdateAccessAsWritten(caller, n) == AccessRaised
    ensures UpdateAccess(caller, n) == Granted
  {
  }

  /** `update_note` with PUT: authenticate, validate, then 404 for a missing
      note, 401 for a caller who neither owns nor collaborates on it, 409 for
      a no-op; `files` None past the no-op test makes `len(None)` raise inside
      the try, answered with 500. Otherwise title and body are overwritten and
      the URL list becomes the retained URLs followed by the new uploads. */
  function UpdateNote(st: Store, sv: Services, cookie: Option<Token>, parsed: Validation<UpdateRequest>): (out: Outcome)
    ensures out.reply.Api? ==> WellFormed(out.reply.response)
    ensures out.store.sessions == st.sessions
    ensures var c := Authenticate(st, cookie, sv.secret);
            !c.Authenticated? ==> out == Rejection(st, c)
    ensures var c := Authenticate(st, cookie, sv.secret);
            c.Authenticated? && !parsed.Valid? ==> out == ValidationRejection(st, parsed)
    ensures !Succeeded(out.reply) ==> out.store == st
    ensures var c := Authenticate(st, cookie, sv.secret);
            c.Authenticated? && parsed.Valid? && parsed.value.noteId !in st.notes ==>
              out.reply == Api(Fail(404, NoteNotFound))
    ensures var c := Authenticate(st, cookie, sv.secret);
            c.Authenticated? && parsed.Valid? && parsed.value.noteId in st.notes &&
            !OwnsOrCollaborates(c.id, st.notes[parsed.value.noteId]) ==>
              out.reply == Api(Fail(401, NotAllowedToUpdate))
    ensures var c := Authenticate(st, cookie, sv.secret);
            c.Authenticated? && parsed.Valid? && parsed.value.noteId in st.notes &&
            OwnsOrCollaborates(c.id, st.notes[parsed.value.noteId]) &&
            NoChanges(parsed.value, st.notes[parsed.value.noteId]) ==>
              out.reply == Api(Fail(409, NoChangesFound))
    ensures var c := Authenticate(st, cookie, sv.secret);
            Succeeded(out.reply) <==>
              && c.Authenticated? && parsed.Valid? && parsed.value.noteId in st.notes
              && OwnsOrCollaborates(c.id, st.notes[parsed.value.noteId])
              && !NoChanges(parsed.value, st.notes[parsed.value.noteId])
              && parsed.value.files.Some?
    ensures Succeeded(out.reply) ==>
              var req := parsed.value;
              && Status(out.reply) == 200
              && req.noteId in st.notes && req.noteId in out.store.notes
              && out.store == st.(notes := st.notes[req.noteId := out.store.notes[req.noteId]])
              && var before, after := st.notes[req.noteId], out.store.notes[req.noteId];
                 && after.title == req.title
                 && after.body == req.note
                 && after.files == req.filesUrls + UploadAll(sv.upload, req.files.value)
                 && after.owner == before.owner
                 && after.collaborators == before.collaborators
  {
    var c := Authenticate(st, cookie, sv.secret);
    if !c.Authenticated? then
      Rejection(st, c)
    else if !parsed.Valid? then
      ValidationRejection(st, parsed)
    else
      var req := parsed.value;
      if req.noteId !in st.notes then
        Outcome(Api(Fail(404, NoteNotFound)), st)
      else
        var n := st.notes[req.noteId];
        if UpdateAccess(c.id, n) == Denied then
          Outcome(Api(Fail(401, NotAllowedToUpdate)), st)
        else if NoChanges(req, n) then
          Outcome(Api(Fail(409, NoChangesFound)), st)
        else if req.files.None? then
          Outcome(Api(Fail(500, InternalError)), st)
        else
          var urls := UploadAll(sv.upload, req.files.value);
          var files := if |urls| > 0 then req.filesUrls + urls else req.filesUrls;
          var n' := n.(title := req.title, body := req.note, files := files);
          Outcome(Api(Done(200, NoteUpdated)), st.(notes := st.notes[req.noteId := n']))
  }

  // ---------------------------------------------------------------- delete

  /** `update_note` with DELETE: authenticate, validate the id, then 404 for
      a missing note and 401 for anyone but the owner; the owner's call
      removes the note. A validation failure escapes: its handler calls
      `e.error()`, which ValidationError does not have. */
  function DeleteNote(st: Store, sv: Services, cookie: Option<Token>, parsed: Validation<NoteId>): (out: Outcome)
    ensures out.reply.Api? ==> WellFormed(out.reply.response)
    ensures out.store.sessions == st.sessions
    ensures var c := Authenticate(st, cookie, sv.secret);
            !c.Authenticated? ==> out == Rejection(st, c)
    ensures var c := Authenticate(st, cookie, sv.secret);
            c.Authenticated? && !parsed.Valid? ==> out == Outcome(Unhandled, st)
    ensures !Succeeded(out.reply) ==> out.store == st
    ensures var c := Authenticate(st, cookie, sv.secret);
            c.Authenticated? && parsed.Valid? && parsed.value !in st.notes ==>
              out.reply == Api(Fail(404, NoteNotFound))
    ensures var c := Authenticate(st, cookie, sv.secret);
            c.Authenticated? && parsed.Valid? && parsed.value in st.notes && st.notes[parsed.value].owner != c.id ==>
              out.reply == Unauthorized
    ensures var c := Authenticate(st, cookie, sv.secret);
            Succeeded(out.reply) <==>
              c.Authenticated? && parsed.Valid? && parsed.value in st.notes && st.notes[parsed.value].owner == c.id
    ensures Succeeded(out.reply) ==>
              && Status(out.reply) == 200
              && parsed.value !in out.store.notes
              && out.store == st.(notes := st.notes - {parsed.value})
  {
    var c := Authenticate(st, cookie, sv.secret);
    if !c.Authenticated? then
      Rejection(st, c)
    else if !parsed.Valid? then
      Outcome(Unhandled, st)
    else
      var id := parsed.value;
      if id !in st.notes then
        Outcome(Api(Fail(404, NoteNotFound)), st)
      else if c.id != st.notes[id].owner then
        Outcome(Unauthorized, st)
      else
        Outcome(Api(Done(200, NoteDeleted)), st.(notes := st.notes - {id}))
  }

  // ---------------------------------------------------------------- list

  /** The ids of the notes `u` owns or collaborates on. */
  function VisibleTo(notes: map<NoteId, Note>, u: UserId): (ids: set<NoteId>)
    ensures forall id :: id in ids <==> id in notes && OwnsOrCollaborates(u, notes[id])
  {
    set id | id in notes && OwnsOrCollaborates(u, notes[id])
  }

  /** `rows` lists each note of `ids` exactly once, with its stored row. */
  ghost predicate ListsExactly(rows: seq<NoteRow>, notes: map<NoteId, Note>, ids: set<NoteId>) {
    && (forall i, j :: 0 <= i < j < |rows| ==> rows[i].id != rows[j].id)
    && (forall i :: 0 <= i < |rows| ==> rows[i].id in ids && rows[i].id in notes && rows[i].note == notes[rows[i].id])
    && (forall id :: id in ids ==> exists i :: 0 <= i < |rows| && rows[i].id == id)
  }

  /** The query `filter(Q(user_id=u) | Q(collaborators=u)).distinct()`: scans
      the notes table and keeps each visible note once. The table has no
      ordering, so neither has the result. */
  method ListVisible(notes: map<NoteId, Note>, u: UserId) returns (rows: seq<NoteRow>)
    ensures ListsExactly(rows, notes, VisibleTo(notes, u))
  {
    rows := [];
    var left := notes.Keys;
    while left != {}
      invariant left <= notes.Keys
      invariant forall i, j :: 0 <= i < j < |rows| ==> rows[i].id != rows[j].id
      invariant forall i :: 0 <= i < |rows| ==>
        rows[i].id in notes && rows[i].id !in left && OwnsOrCollaborates(u, notes[rows[i].id]) && rows[i].note == notes[rows[i].id]
      invariant forall id :: id in notes && id !in left && OwnsOrCollaborates(u, notes[id]) ==>
        exists i :: 0 <= i < |rows| && rows[i].id == id
      decreases |left|
    {
      var id :| id in left;
      if OwnsOrCollaborates(u, notes[id]) {
        var before := rows;
        rows := rows + [NoteRow(id, notes[id])];
        assert forall i :: 0 <= i < |before| ==> rows[i] == before[i];
        assert rows[|rows| - 1].id == id;
      }
      left := left - {id};
    }
  }

  /** `get_notes`: authenticate, then answer 200 with every note the caller
      owns or collaborates on, each once. Nothing is written. */
  method GetNotes(st: Store, sv: Services, cookie: Option<Token>) returns (out: Outcome)
    ensures out.store == st
    ensures out.reply.Api? ==> WellFormed(out.reply.response)
    ensures var c := Authenticate(st, cookie, sv.secret);
            !c.Authenticated? ==> out == Rejection(st, c)
    ensures var c := Authenticate(st, cookie, sv.secret);
            c.Authenticated? ==>
              && Succeeded(out.reply)
              && Status(out.reply) == 200
              && out.reply.response.body.data.Some?
              && out.reply.response.body.data.value.NoteRows?
              && ListsExactly(out.reply.response.body.data.value.rows, st.notes, VisibleTo(st.notes, c.id))
  {
    var c := Authenticate(st, cookie, sv.secret);
    if !c.Authenticated? {
      out := Rejection(st, c);
    } else {
      var rows := ListVisible(st.notes, c.id);
      out := Outcome(Api(APIResponse(true, 200, NotesFetched, Some(NoteRows(rows)), None, None)), st);
    }
  }

  /** The notes a user sees are exactly the notes the user may update. */
  lemma VisibleExactlyWhenUpdatable(notes: map<NoteId, Note>, u: UserId, id: NoteId)
    requires id in notes
    ensures id in VisibleTo(notes, u) <==> UpdateAccess(u, notes[id]) == Granted
  {
  }

  // ---------------------------------------------------------------- collaborators

  /** POST adds a collaborator, DELETE removes one. */
  datatype Change = Add | Remove

  datatype CollaboratorRequest = CollaboratorRequest(noteId: NoteId, collaboratorId: UserId)

  /** `add_remove_collaborator`: authenticate, validate, then 404 for a
      missing note, 404 for a missing target user, 409 when the target is the
      caller, then 409 for a redundant change. Nothing checks that the caller
      owns or collaborates on the note. */
  function ChangeCollaborator(st: Store, sv: Services, cookie: Option<Token>, change: Change,
                              parsed: Validation<CollaboratorRequest>): (out: Outcome)
    ensures out.reply.Api? ==> WellFormed(out.reply.response)
    ensures out.store.sessions == st.sessions
    ensures var c := Authenticate(st, cookie, sv.secret);
            !c.Authenticated? ==> out == Rejection(st, c)
    ensures var c := Authenticate(st, cookie, sv.secret);
            c.Authenticated? && !parsed.Valid? ==> out == ValidationRejection(st, parsed)
    ensures !Succeeded(out.reply) ==> out.store == st
    ensures var c := Authenticate(st, cookie, sv.secret);
            c.Authenticated? && parsed.Valid? && parsed.value.noteId !in st.notes ==>
              out.reply == Api(Fail(404, NoNoteWithId))
    ensures var c := Authenticate(st, cookie, sv.secret);
            c.Authenticated? && parsed.Valid? && parsed.value.noteId in st.notes &&
            parsed.value.collaboratorId !in st.users ==>
              out.reply == Api(Fail(404, NoUserWithId))
    ensures var c := Authenticate(st, cookie, sv.secret);
            c.Authenticated? && parsed.Valid? && parsed.value.noteId in st.notes &&
            parsed.value.collaboratorId in st.users && parsed.value.collaboratorId == c.id ==>
              out.reply == Api(Fail(409, CannotChangeSelf))
    ensures var c := Authenticate(st, cookie, sv.secret);
            Succeeded(out.reply) <==>
              && c.Authenticated? && parsed.Valid?
              && parsed.value.noteId in st.notes
              && parsed.value.collaboratorId in st.users
              && parsed.value.collaboratorId != c.id
              && (change == Add <==> parsed.value.collaboratorId !in st.notes[parsed.value.noteId].collaborators)
    ensures Succeeded(out.reply) ==>
              var id, t := parsed.value.noteId, parsed.value.collaboratorId;
              && Status(out.reply) == 200
              && id in st.notes && id in out.store.notes
              && out.store == st.(notes := st.notes[id := out.store.notes[id]])
              && var before, after := st.notes[id], out.store.notes[id];
                 && after.owner == before.owner && after.title == before.title
                 && after.body == before.body && after.files == before.files
                 && (change == Add ==> t !in before.collaborators && after.collaborators == before.collaborators + {t})
                 && (change == Remove ==> t in before.collaborators && after.collaborators == before.collaborators - {t})
  {
    var c := Authenticate(st, cookie, sv.secret);
    if !c.Authenticated? then
      Rejection(st, c)
    else if !parsed.Valid? then
      ValidationRejection(st, parsed)
    else
      var id, t := parsed.value.noteId, parsed.value.collaboratorId;
      if id !in st.notes then
        Outcome(Api(Fail(404, NoNoteWithId)), st)
      else if t !in st.users then
        Outcome(Api(Fail(404, NoUserWithId)), st)
      else if c.id == t then
        Outcome(Api(Fail(409, CannotChangeSelf)), st)
      else
        var n := st.notes[id];
        match change
        case Add =>
          if t in n.collaborators then
            Outcome(Api(Fail(409, AlreadyCollaborator)), st)
          else
            Outcome(Api(Done(200, CollaboratorAdded)), st.(notes := st.notes[id := n.(collaborators := n.collaborators + {t})]))
        case Remove =>
          if t !in n.collaborators then
            Outcome(Api(Fail(409, NotACollaborator)), st)
          else
            Outcome(Api(Done(200, CollaboratorRemoved)), st.(notes := st.notes[id := n.(collaborators := n.collaborators - {t})]))
  }
}
