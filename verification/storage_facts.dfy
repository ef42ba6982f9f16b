/** Properties of `storageService` that relate several calls, and the invariant the
    service keeps when its ids are fresh and its clock does not run backwards. */
module StorageFacts {
  import opened Wrappers
  import opened Types
  import opened Seqs
  import opened Recency
  import opened Storage

  // ---------------------------------------------------------------- sessions

  /** Right after a successful register, the session slot holds the new user and a non-empty token. */
  lemma {:induction false} RegisterThenGetSession(s: Store, name: string, email: string, password: string, freshId: string)
    requires Register(s, name, email, password, freshId).result.Success?
    ensures GetSession(Register(s, name, email, password, freshId).store) ==
            Some(AuthResponse(User(freshId, email, name), Token(freshId)))
    ensures Token(freshId) != ""
  {
    assert Token(freshId)[0] == 'f';
  }

  /** A second registration with the same email fails and changes nothing. */
  lemma {:induction false} RegisterSameEmailTwice(s: Store, email: string, name1: string, password1: string, id1: string,
                                                  name2: string, password2: string, id2: string)
    requires Register(s, name1, email, password1, id1).result.Success?
    ensures var after := Register(s, name1, email, password1, id1).store;
            var again := Register(after, name2, email, password2, id2);
            again.result == Failure(UserAlreadyExists) && again.store == after
    ensures Register(Register(s, name1, email, password1, id1).store, name2, email, password2, id2)
              .result.error.Message() == "User already exists"
  {
    var after := Register(s, name1, email, password1, id1).store;
    assert EmailIs(after.users[|s.users|], email);
  }

  /** Logging in with the credentials just registered succeeds and yields the same session,
      because the new user is the only one with that email. */
  lemma {:induction false} RegisterThenLogin(s: Store, name: string, email: string, password: string, freshId: string)
    requires Register(s, name, email, password, freshId).result.Success?
    ensures var reg := Register(s, name, email, password, freshId);
            var log := Login(reg.store, email, password);
            log.result == reg.result && log.store == reg.store
  {
    var reg := Register(s, name, email, password, freshId);
    var users := reg.store.users;
    var log := Login(reg.store, email, password);
    assert CredentialsMatch(users[|s.users|], email, password);
  }

  /** A wrong password never logs in, whatever the email. */
  lemma {:induction false} WrongPasswordFails(s: Store, email: string, password: string)
    requires forall i :: 0 <= i < |s.users| && s.users[i].email == email ==> s.users[i].password != password
    ensures Login(s, email, password) == Step(s, Failure(InvalidCredentials))
    ensures Login(s, email, password).result.error.Message() == "Invalid credentials"
  {
  }

  /** After logout there is no session; logging out twice is logging out once. */
  lemma {:induction false} LogoutClearsSession(s: Store)
    ensures GetSession(Logout(s)) == None
    ensures Logout(Logout(s)) == Logout(s)
    ensures Logout(s) == Store(s.users, s.notes, None)
  {
  }

  // ---------------------------------------------------------------- notes

  /** Notes of one user with the same timestamp come back in storage order. */
  lemma {:induction false} GetNotesStable(s: Store, userId: string, t: int)
    ensures Filter(GetNotes(s, userId), StampedAt(t)) == Filter(Filter(s.notes, OwnedBy(userId)), StampedAt(t))
  {
    SortStable(Filter(s.notes, OwnedBy(userId)), t);
  }

  /** Two notes A (older) and B (newer) of one user, and C of another: the listing is [B, A]. */
  lemma {:induction false} GetNotesExample(a: Note, b: Note, c: Note, userId: string)
    requires a.userId == userId && b.userId == userId && c.userId != userId
    requires a.updatedAt < b.updatedAt
    ensures GetNotes(Store([], [a, b, c], None), userId) == [b, a]
  {
    var p := OwnedBy(userId);
    assert p(a) && p(b) && !p(c);
    assert [a, b, c][1..] == [b, c] && [b, c][1..] == [c] && [c][1..] == [];
    assert Filter([c], p) == [];
    assert Filter([b, c], p) == [b];
    assert Filter([a, b, c], p) == [a, b];
    assert [a, b][1..] == [b] && [b][1..] == [];
    assert SortNewestFirst([b]) == Insert(b, []) == [b];
    assert Insert(a, [b]) == [b] + Insert(a, []) == [b, a];
  }

  /** Whatever `saveNote` returns is then listed for the payload's owner. */
  lemma {:induction false} SaveThenList(s: Store, p: Patch, now: int, freshId: string)
    requires p.userId.Some?
    requires SaveNote(s, p, now, freshId).result.Success?
    ensures var r := SaveNote(s, p, now, freshId);
            r.result.value.userId == p.userId.value && r.result.value in GetNotes(r.store, p.userId.value)
  {
    var r := SaveNote(s, p, now, freshId);
    if HasTruthyId(p) {
      var k :| FirstWithId(s.notes, p.id.value, k) && r.store.notes[k] == r.result.value &&
               |r.store.notes| == |s.notes| && MergedFrom(r.result.value, s.notes[k], p, now);
      assert r.store.notes[k].userId == p.userId.value;
    } else {
      assert r.store.notes[|s.notes|] == r.result.value;
    }
  }

  /** Creating a note and then changing only its title: creation time and content survive,
      the update time moves on. */
  lemma {:induction false} CreateThenRetitle(s: Store, p: Patch, t1: int, id: string, title: string, t2: int, unused: string)
    requires p.userId.Some? && !HasTruthyId(p)
    requires Truthy(id) && forall i :: 0 <= i < |s.notes| ==> s.notes[i].id != id
    requires t1 < t2
    ensures var created := SaveNote(s, p, t1, id);
            var edit := Patch(Some(id), p.userId, Some(title), None, None, None, None, None, None, None);
            var updated := SaveNote(created.store, edit, t2, unused);
            && updated.result.Success?
            && updated.result.value.title == title
            && updated.result.value.createdAt == created.result.value.createdAt
            && updated.result.value.content == created.result.value.content
            && updated.result.value.updatedAt > created.result.value.updatedAt
  {
    var created := SaveNote(s, p, t1, id);
    var edit := Patch(Some(id), p.userId, Some(title), None, None, None, None, None, None, None);
    var notes := created.store.notes;
    assert notes[|s.notes|].id == id;
    assert FirstWithId(notes, id, |s.notes|);
    var updated := SaveNote(created.store, edit, t2, unused);
  }

  /** An update whose id names the note at its first occurrence `k` replaces exactly that note. */
  lemma {:induction false} SaveAtFirst(s: Store, p: Patch, k: int, now: int, freshId: string)
    requires p.userId.Some? && p.id.Some? && Truthy(p.id.value) && FirstWithId(s.notes, p.id.value, k)
    ensures SaveNote(s, p, now, freshId) ==
            Step(s.(notes := s.notes[k := Merge(s.notes[k], p, now)]), Success(Merge(s.notes[k], p, now)))
  {
    assert FindIndex(s.notes, HasId(p.id.value)) == Some(k);
  }

  /** Deleting an id that is not stored changes nothing. */
  lemma {:induction false} DeleteAbsentIsNoOp(s: Store, noteId: string)
    requires forall i :: 0 <= i < |s.notes| ==> s.notes[i].id != noteId
    ensures DeleteNote(s, noteId) == s
  {
    FilterKeepsAll(s.notes, IdIsNot(noteId));
  }

  /** Deleting twice is deleting once. */
  lemma {:induction false} DeleteIdempotent(s: Store, noteId: string)
    ensures DeleteNote(DeleteNote(s, noteId), noteId) == DeleteNote(s, noteId)
  {
    FilterIdempotent(s.notes, IdIsNot(noteId));
  }

  /** Deleting removes the note from its owner's listing and keeps the rest of it. */
  lemma {:induction false} DeleteThenList(s: Store, noteId: string, userId: string)
    ensures forall i :: 0 <= i < |GetNotes(DeleteNote(s, noteId), userId)| ==>
              GetNotes(DeleteNote(s, noteId), userId)[i].id != noteId
    ensures forall n :: n in GetNotes(s, userId) && n.id != noteId ==> n in GetNotes(DeleteNote(s, noteId), userId)
  {
    var before := GetNotes(s, userId);
    var after := GetNotes(DeleteNote(s, noteId), userId);
    forall n | n in before && n.id != noteId ensures n in after {
      var i :| 0 <= i < |before| && before[i] == n;
      var j :| 0 <= j < |s.notes| && s.notes[j] == n;
      var d := DeleteNote(s, noteId).notes;
      var m :| 0 <= m < |d| && d[m] == n;
    }
  }

  // ---------------------------------------------------------------- invariant

  function UserId(u: UserRecord): string { u.id }
  function UserEmail(u: UserRecord): string { u.email }
  function NoteId(n: Note): string { n.id }

  /** What every reachable store satisfies: unique emails and user ids, unique non-empty
      note ids, no note updated before it was created, and a session (if any) that belongs
      to a stored user. */
  ghost predicate Valid(s: Store) {
    && DistinctKeys(s.users, UserId)
    && DistinctKeys(s.users, UserEmail)
    && DistinctKeys(s.notes, NoteId)
    && (forall i :: 0 <= i < |s.notes| ==> Truthy(s.notes[i].id) && s.notes[i].createdAt <= s.notes[i].updatedAt)
    && (s.session.Some? ==> exists i :: 0 <= i < |s.users| && s.session.value == SessionFor(s.users[i]))
  }

  /** What `crypto.randomUUID` guarantees of a new id: non-empty and unused. */
  ghost predicate FreshUserId(s: Store, id: string) {
    Truthy(id) && forall i :: 0 <= i < |s.users| ==> s.users[i].id != id
  }

  ghost predicate FreshNoteId(s: Store, id: string) {
    Truthy(id) && forall i :: 0 <= i < |s.notes| ==> s.notes[i].id != id
  }

  /** The clock reads no earlier than any stored update time. */
  ghost predicate ClockAhead(s: Store, now: int) {
    forall i :: 0 <= i < |s.notes| ==> s.notes[i].updatedAt <= now
  }

  lemma {:induction false} EmptyIsValid()
    ensures Valid(Empty)
  {
  }

  lemma {:induction false} RegisterKeepsValid(s: Store, name: string, email: string, password: string, freshId: string)
    requires Valid(s) && FreshUserId(s, freshId)
    ensures Valid(Register(s, name, email, password, freshId).store)
  {
    var r := Register(s, name, email, password, freshId);
    if r.result.Success? {
      var users := r.store.users;
      var n := |s.users|;
      forall i, j | 0 <= i < j < |users| ensures users[i].id != users[j].id && users[i].email != users[j].email {
        if j == n {
          assert users[i] == s.users[i];
          assert !EmailIs(s.users[i], email);
        } else {
          assert users[i] == s.users[i] && users[j] == s.users[j];
        }
      }
      assert r.store.session.value == SessionFor(users[n]);
    }
  }

  lemma {:induction false} LoginKeepsValid(s: Store, email: string, password: string)
    requires Valid(s)
    ensures Valid(Login(s, email, password).store)
  {
    var r := Login(s, email, password);
    if r.result.Success? {
      var i :| FirstMatch(s.users, email, password, i) && r.store.session == Some(r.result.value) &&
               r.result.value == AuthResponse(User(s.users[i].id, email, s.users[i].name), Token(s.users[i].id));
      assert r.store.session.value == SessionFor(s.users[i]);
    }
  }

  lemma {:induction false} LogoutKeepsValid(s: Store)
    requires Valid(s)
    ensures Valid(Logout(s))
  {
  }

  /** Under the invariant, what `getSession` reads is the public view and token of a
      stored user. */
  lemma {:induction false} SessionIsStoredUser(s: Store)
    requires Valid(s) && GetSession(s).Some?
    ensures exists i :: 0 <= i < |s.users| &&
              GetSession(s).value == AuthResponse(User(s.users[i].id, s.users[i].email, s.users[i].name),
                                                  Token(s.users[i].id))
  {
    var i :| 0 <= i < |s.users| && s.session.value == SessionFor(s.users[i]);
    assert GetSession(s).value == AuthResponse(Public(s.users[i]), Token(s.users[i].id));
  }

  /** `saveNote` keeps the invariant when the id is fresh, the clock is ahead, and the
      payload does not move `createdAt` past now (the update spread would copy it). */
  lemma {:induction false} SaveNoteKeepsValid(s: Store, p: Patch, now: int, freshId: string)
    requires Valid(s) && FreshNoteId(s, freshId) && ClockAhead(s, now)
    requires p.userId.Some?
    requires p.createdAt.None? || p.createdAt.value <= now
    ensures Valid(SaveNote(s, p, now, freshId).store)
  {
    var r := SaveNote(s, p, now, freshId);
    if r.result.Success? {
      if HasTruthyId(p) {
        var k :| FirstWithId(s.notes, p.id.value, k) && |r.store.notes| == |s.notes| &&
                 r.store.notes[k] == r.result.value &&
                 (forall i :: 0 <= i < |s.notes| && i != k ==> r.store.notes[i] == s.notes[i]) &&
                 MergedFrom(r.result.value, s.notes[k], p, now);
        ReplaceKeepsNotesValid(s, r.store, k, now);
      } else {
        AppendKeepsNotesValid(s, r.store, now);
      }
    }
  }

  /** Replacing one note by one with the same id, stamped `now`, and created no later. */
  lemma {:induction false} ReplaceKeepsNotesValid(s: Store, t: Store, k: int, now: int)
    requires Valid(s) && ClockAhead(s, now)
    requires t.users == s.users && t.session == s.session
    requires 0 <= k < |s.notes| && |t.notes| == |s.notes|
    requires forall i :: 0 <= i < |s.notes| && i != k ==> t.notes[i] == s.notes[i]
    requires t.notes[k].id == s.notes[k].id && t.notes[k].updatedAt == now
    requires t.notes[k].createdAt == s.notes[k].createdAt || t.notes[k].createdAt <= now
    ensures Valid(t)
  {
    var notes := t.notes;
    forall i, j | 0 <= i < j < |notes| ensures notes[i].id != notes[j].id {
      assert notes[i].id == s.notes[i].id && notes[j].id == s.notes[j].id;
    }
    forall i | 0 <= i < |notes| ensures Truthy(notes[i].id) && notes[i].createdAt <= notes[i].updatedAt {
      if i == k {
        assert s.notes[k].createdAt <= s.notes[k].updatedAt <= now;
      } else {
        assert notes[i] == s.notes[i];
      }
    }
  }

  /** Appending a note with a fresh id that was not updated before it was created. */
  lemma {:induction false} AppendKeepsNotesValid(s: Store, t: Store, now: int)
    requires Valid(s)
    requires t.users == s.users && t.session == s.session
    requires |t.notes| == |s.notes| + 1 && t.notes[..|s.notes|] == s.notes
    requires FreshNoteId(s, t.notes[|s.notes|].id)
    requires t.notes[|s.notes|].createdAt <= t.notes[|s.notes|].updatedAt
    ensures Valid(t)
  {
    var notes := t.notes;
    var n := |s.notes|;
    forall i, j | 0 <= i < j < |notes| ensures notes[i].id != notes[j].id {
      assert notes[i] == s.notes[i];
      if j < n { assert notes[j] == s.notes[j]; }
    }
    forall i | 0 <= i < |notes| ensures Truthy(notes[i].id) && notes[i].createdAt <= notes[i].updatedAt {
      if i < n { assert notes[i] == s.notes[i]; }
    }
  }

  lemma {:induction false} DeleteKeepsValid(s: Store, noteId: string)
    requires Valid(s)
    ensures Valid(DeleteNote(s, noteId))
  {
    FilterKeepsDistinctKeys(s.notes, IdIsNot(noteId), NoteId);
  }
}
