/** `storageService` of services/storage.ts: the client-side fake backend. The three
    local-storage slots are one immutable record, and every service call is a pure
    transition over it. The random UUID and the current time are parameters. */
module Storage {
  import opened Wrappers
  import opened Types
  import opened Seqs
  import opened Recency

  /** A stored user: the public fields plus the plain-text password. */
  datatype UserRecord = UserRecord(id: string, name: string, email: string, password: string)

  /** The slots `meetpulse_users`, `meetpulse_notes` and `meetpulse_session`.
      A missing users or notes slot reads as the empty list, so it is not distinguished;
      `session == None` is a removed session slot. */
  datatype Store = Store(users: seq<UserRecord>, notes: seq<Note>, session: Option<AuthResponse>)

  /** The errors the service throws. */
  datatype StoreError = UserAlreadyExists | InvalidCredentials | NoteNotFound {
    function Message(): string {
      match this
      case UserAlreadyExists => "User already exists"
      case InvalidCredentials => "Invalid credentials"
      case NoteNotFound => "Note not found"
    }
  }

  /** The state after a call together with what the call returned or threw. */
  datatype Step<T> = Step(store: Store, result: Result<T, StoreError>)

  /** A browser with nothing stored yet. */
  const Empty: Store := Store([], [], None)

  const TokenPrefix: string := "fake-jwt-"

  /** The session token derived from a user id. */
  function Token(id: string): (t: string)
    ensures |t| == |TokenPrefix| + |id|
    ensures t[..|TokenPrefix|] == TokenPrefix && t[|TokenPrefix|..] == id
  {
    TokenPrefix + id
  }

  /** Different users get different tokens. */
  lemma {:induction false} TokenInjective(a: string, b: string)
    requires Token(a) == Token(b)
    ensures a == b
  {
    assert a == Token(a)[|TokenPrefix|..];
  }

  /** A stored user without the password. */
  function Public(u: UserRecord): User {
    User(u.id, u.email, u.name)
  }

  /** The session written on a successful register or login. */
  function SessionFor(u: UserRecord): AuthResponse {
    AuthResponse(Public(u), Token(u.id))
  }

  predicate EmailIs(u: UserRecord, email: string) {
    u.email == email
  }

  predicate CredentialsMatch(u: UserRecord, email: string, password: string) {
    u.email == email && u.password == password
  }

  /** `register(name, email, password)`. */
  function Register(s: Store, name: string, email: string, password: string, freshId: string): (r: Step<AuthResponse>)
    ensures r.result.Failure? <==> exists i :: 0 <= i < |s.users| && EmailIs(s.users[i], email)
    ensures r.result.Failure? ==> r.result.error == UserAlreadyExists && r.store == s
    ensures r.result.Success? ==>
      && r.store.users == s.users + [UserRecord(freshId, name, email, password)]
      && r.result.value == AuthResponse(User(freshId, email, name), Token(freshId))
      && r.store.session == Some(r.result.value)
    ensures r.store.notes == s.notes
  {
    match FindIndex(s.users, (u: UserRecord) => EmailIs(u, email))
    case Some(_) => Step(s, Failure(UserAlreadyExists))
    case None =>
      var newUser := UserRecord(freshId, name, email, password);
      var session := SessionFor(newUser);
      Step(Store(s.users + [newUser], s.notes, Some(session)), Success(session))
  }

  /** `i` is the first user whose email and password both match. */
  predicate FirstMatch(users: seq<UserRecord>, email: string, password: string, i: int) {
    && 0 <= i < |users|
    && CredentialsMatch(users[i], email, password)
    && forall j :: 0 <= j < i ==> !CredentialsMatch(users[j], email, password)
  }

  /** `login(email, password)`. */
  function Login(s: Store, email: string, password: string): (r: Step<AuthResponse>)
    ensures r.store.users == s.users && r.store.notes == s.notes
    ensures r.result.Success? <==>
      exists i :: 0 <= i < |s.users| && CredentialsMatch(s.users[i], email, password)
    ensures r.result.Failure? ==> r.result.error == InvalidCredentials && r.store == s
    ensures r.result.Success? ==>
      exists i ::
        && FirstMatch(s.users, email, password, i)
        && r.result.value == AuthResponse(User(s.users[i].id, email, s.users[i].name), Token(s.users[i].id))
        && r.store.session == Some(r.result.value)
  {
    match FindIndex(s.users, (u: UserRecord) => CredentialsMatch(u, email, password))
    case None => Step(s, Failure(InvalidCredentials))
    case Some(i) =>
      assert FirstMatch(s.users, email, password, i);
      var session := SessionFor(s.users[i]);
      Step(s.(session := Some(session)), Success(session))
  }

  /** `logout()`: removes the session slot. */
  function Logout(s: Store): (r: Store)
    ensures r.session.None?
    ensures r.users == s.users && r.notes == s.notes
  {
    s.(session := None)
  }

  /** `getSession()`: reads the session slot. */
  function GetSession(s: Store): Option<AuthResponse> {
    s.session
  }

  function OwnedBy(userId: string): Note -> bool {
    (n: Note) => n.userId == userId
  }

  /** `getNotes(userId)`: the user's notes, most recently updated first. */
  function GetNotes(s: Store, userId: string): (r: seq<Note>)
    ensures multiset(r) == multiset(Filter(s.notes, OwnedBy(userId)))
    ensures NewestFirst(r)
    ensures forall i :: 0 <= i < |r| ==> r[i] in s.notes && r[i].userId == userId
    ensures forall i :: 0 <= i < |s.notes| && s.notes[i].userId == userId ==> s.notes[i] in r
  {
    var mine := Filter(s.notes, OwnedBy(userId));
    FilterMembers(s.notes, OwnedBy(userId));
    var r := SortNewestFirst(mine);
    SameElements(r, mine);
    forall i | 0 <= i < |r| ensures r[i] in s.notes && r[i].userId == userId {
      var m :| 0 <= m < |mine| && mine[m] == r[i];
      assert OwnedBy(userId)(mine[m]);
    }
    r
  }

  function HasId(id: string): Note -> bool {
    (n: Note) => n.id == id
  }

  /** `i` is the first index of a note with the given id. */
  predicate FirstWithId(notes: seq<Note>, id: string, i: int) {
    0 <= i < |notes| && notes[i].id == id && forall j :: 0 <= j < i ==> notes[j].id != id
  }

  /** The spread `{ ...base, ...p, updatedAt: now }`. */
  function Merge(base: Note, p: Patch, now: int): Note {
    Note(
      p.id.GetOr(base.id),
      p.userId.GetOr(base.userId),
      p.title.GetOr(base.title),
      p.content.GetOr(base.content),
      p.participants.GetOr(base.participants),
      p.tags.GetOr(base.tags),
      p.createdAt.GetOr(base.createdAt),
      now,
      p.summary.GetOr(base.summary),
      p.actionItems.GetOr(base.actionItems))
  }

  /** `field || fallback` for a string field of the payload. */
  function OrElse(field: Option<string>, fallback: string): string {
    if field.Some? && Truthy(field.value) then field.value else fallback
  }

  const UntitledMeeting: string := "Untitled Meeting"

  /** The note literal of the create branch. */
  function Create(p: Patch, now: int, freshId: string): Note
    requires p.userId.Some?
  {
    Note(
      freshId,
      p.userId.value,
      OrElse(p.title, UntitledMeeting),
      OrElse(p.content, ""),
      p.participants.GetOr([]),
      p.tags.GetOr([]),
      now,
      now,
      Flatten(p.summary),
      Flatten(p.actionItems))
  }

  /** A key present in the payload replaces the stored value; an absent key keeps it. */
  ghost predicate Overwrites<T>(key: Option<T>, before: T, after: T) {
    (key.Some? ==> after == key.value) && (key.None? ==> after == before)
  }

  /** `n` is `base` after a shallow merge with `p` at time `now`. */
  ghost predicate MergedFrom(n: Note, base: Note, p: Patch, now: int) {
    && n.id == base.id
    && n.updatedAt == now
    && Overwrites(p.userId, base.userId, n.userId)
    && Overwrites(p.title, base.title, n.title)
    && Overwrites(p.content, base.content, n.content)
    && Overwrites(p.participants, base.participants, n.participants)
    && Overwrites(p.tags, base.tags, n.tags)
    && Overwrites(p.createdAt, base.createdAt, n.createdAt)
    && Overwrites(p.summary, base.summary, n.summary)
    && Overwrites(p.actionItems, base.actionItems, n.actionItems)
  }

  /** `n` is the note the create branch builds from `p`. */
  ghost predicate CreatedFrom(n: Note, p: Patch, now: int, freshId: string)
    requires p.userId.Some?
  {
    && n.id == freshId
    && n.userId == p.userId.value
    && n.createdAt == now && n.updatedAt == now
    && (p.title.Some? && p.title.value != "" ==> n.title == p.title.value)
    && (p.title.None? || p.title.value == "" ==> n.title == UntitledMeeting)
    && (p.content.Some? ==> n.content == p.content.value)
    && (p.content.None? ==> n.content == "")
    && (p.participants.Some? ==> n.participants == p.participants.value)
    && (p.participants.None? ==> n.participants == [])
    && (p.tags.Some? ==> n.tags == p.tags.value)
    && (p.tags.None? ==> n.tags == [])
    && (n.summary.Some? <==> p.summary.Some? && p.summary.value.Some?)
    && (n.summary.Some? ==> n.summary.value == p.summary.value.value)
    && (n.actionItems.Some? <==> p.actionItems.Some? && p.actionItems.value.Some?)
    && (n.actionItems.Some? ==> n.actionItems.value == p.actionItems.value.value)
  }

  /** `saveNote(p)`: updates the note `p.id` names when `p.id` is truthy, creates one otherwise. */
  function SaveNote(s: Store, p: Patch, now: int, freshId: string): (r: Step<Note>)
    requires p.userId.Some?
    ensures r.store.users == s.users && r.store.session == s.session
    ensures r.result.Failure? ==> r.store == s && r.result.error == NoteNotFound
    ensures r.result.Failure? ==> r.result.error.Message() == "Note not found"
    // create branch
    ensures !HasTruthyId(p) ==>
      && r.result.Success?
      && r.store.notes == s.notes + [r.result.value]
      && CreatedFrom(r.result.value, p, now, freshId)
    // update branch
    ensures HasTruthyId(p) ==>
      (r.result.Success? <==> exists i :: 0 <= i < |s.notes| && s.notes[i].id == p.id.value)
    ensures HasTruthyId(p) && r.result.Success? ==>
      exists k ::
        && FirstWithId(s.notes, p.id.value, k)
        && |r.store.notes| == |s.notes|
        && r.store.notes[k] == r.result.value
        && (forall i :: 0 <= i < |s.notes| && i != k ==> r.store.notes[i] == s.notes[i])
        && MergedFrom(r.result.value, s.notes[k], p, now)
  {
    if HasTruthyId(p) then
      match FindIndex(s.notes, HasId(p.id.value))
      case None => Step(s, Failure(NoteNotFound))
      case Some(k) =>
        assert FirstWithId(s.notes, p.id.value, k);
        var saved := Merge(s.notes[k], p, now);
        Step(s.(notes := s.notes[k := saved]), Success(saved))
    else
      var saved := Create(p, now, freshId);
      Step(s.(notes := s.notes + [saved]), Success(saved))
  }

  function IdIsNot(id: string): Note -> bool {
    (n: Note) => n.id != id
  }

  /** `deleteNote(noteId)`: drops every note with that id. */
  function DeleteNote(s: Store, noteId: string): (r: Store)
    ensures r.users == s.users && r.session == s.session
    ensures IsSubseq(r.notes, s.notes)
    ensures forall i :: 0 <= i < |r.notes| ==> r.notes[i] in s.notes && r.notes[i].id != noteId
    ensures forall i :: 0 <= i < |s.notes| && s.notes[i].id != noteId ==> s.notes[i] in r.notes
    ensures forall n :: multiset(r.notes)[n] == if n.id != noteId then multiset(s.notes)[n] else 0
  {
    FilterIsSubseq(s.notes, IdIsNot(noteId));
    FilterCount(s.notes, IdIsNot(noteId));
    FilterMembers(s.notes, IdIsNot(noteId));
    s.(notes := Filter(s.notes, IdIsNot(noteId)))
  }
}
