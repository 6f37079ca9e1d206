/** The three tables of the backend (users, notes, session rows) as one
    immutable store, plus the queries the views make against it. */
module Models {
  import opened Types

  /** A user row. `password` holds the bcrypt hash, never the raw secret;
      creation and update timestamps are left out. */
  datatype User = User(name: string, email: string, profilePictureUrl: Url, password: string)

  /** A note row. `owner` is the creator (the `user` the views read and write);
      `files` is the ordered list of attachment URLs; `collaborators` is the
      many-to-many relation to users, hence a set. */
  datatype Note = Note(owner: UserId, title: string, body: string, files: seq<Url>, collaborators: set<UserId>)

  /** The whole database: users and notes by primary key, and the session
      table as the multiset of the user ids its rows point at (a session row
      carries nothing else the model needs). */
  datatype Store = Store(users: map<UserId, User>, notes: map<NoteId, Note>, sessions: multiset<UserId>)

  /** A note is visible to, and editable by, its owner and its collaborators. */
  predicate OwnsOrCollaborates(u: UserId, n: Note) {
    n.owner == u || u in n.collaborators
  }

  /** A set of size two or more has two distinct members. */
  lemma LargerThanSingleton(s: set<UserId>)
    requires |s| > 1
    ensures exists x, y :: x in s && y in s && x != y
  {
    var x :| x in s;
    assert |s - {x}| > 0;
    var y :| y in s - {x};
  }

  /** No registered user has this e-mail address. */
  predicate EmailFree(users: map<UserId, User>, email: string) {
    forall id :: id in users ==> users[id].email != email
  }

  /** The database's unique constraint on `User.email`. */
  ghost predicate EmailsUnique(users: map<UserId, User>) {
    forall a, b :: a in users && b in users && users[a].email == users[b].email ==> a == b
  }

  /** `User.objects.filter(email=...)`: the ids of the users whose e-mail is
      `email`. The query finds something exactly when the address is taken,
      and under the unique constraint it finds at most one row. */
  function UsersWithEmail(users: map<UserId, User>, email: string): (ids: set<UserId>)
    ensures ids <= users.Keys
    ensures ids == {} <==> EmailFree(users, email)
    ensures EmailsUnique(users) ==> |ids| <= 1
  {
    var ids := set id | id in users && users[id].email == email;
    assert ids == {} <==> EmailFree(users, email) by {
      if !EmailFree(users, email) {
        var id :| id in users && users[id].email == email;
        assert id in ids;
      }
    }
    assert EmailsUnique(users) ==> |ids| <= 1 by {
      if EmailsUnique(users) && |ids| > 1 {
        LargerThanSingleton(ids);
        assert false;
      }
    }
    ids
  }

  /** What `User.objects.get(email=...)` does: no row raises DoesNotExist, more
      than one raises MultipleObjectsReturned, exactly one is returned. */
  datatype Lookup = Missing | Found(id: UserId) | Ambiguous

  /** A set of size one has a single member. */
  lemma SingletonMembersEqual(s: set<UserId>, x: UserId, y: UserId)
    requires |s| == 1 && x in s && y in s
    ensures x == y
  {
    assert |s - {x}| == 0;
  }

  function GetByEmail(users: map<UserId, User>, email: string): (r: Lookup)
    ensures r == Missing <==> forall id :: id in users ==> users[id].email != email
    ensures r.Found? ==> r.id in users && users[r.id].email == email
    ensures r.Found? ==> forall id :: id in users && users[id].email == email ==> id == r.id
    ensures r == Ambiguous ==> !EmailsUnique(users)
  {
    var ids := UsersWithEmail(users, email);
    assert forall id :: id in ids <==> id in users && users[id].email == email;
    if |ids| == 0 then
      Missing
    else if |ids| == 1 then
      assert forall x, y :: x in ids && y in ids ==> x == y by {
        forall x, y | x in ids && y in ids ensures x == y {
          SingletonMembersEqual(ids, x, y);
        }
      }
      var id :| id in ids;
      Found(id)
    else
      LargerThanSingleton(ids);
      Ambiguous
  }
}
