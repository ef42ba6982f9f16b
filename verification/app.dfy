/** The logic `App` wraps around the store: the dashboard search filter and the owner
    injection of `handleSaveNote`, plus how the modal's payload drives `saveNote`. */
module App {
  import opened Wrappers
  import opened Types
  import opened Seqs
  import opened Text
  import opened Storage
  import opened NoteModal
  import StorageFacts

  /** Some tag of `n` includes the (already lowercased) query `q`. */
  predicate SomeTagContains(tags: seq<string>, q: string) {
    exists k :: 0 <= k < |tags| && Contains(Lower(tags[k]), q)
  }

  /** The search predicate: lowercased title, some lowercased tag, or lowercased content
      includes the lowercased query. */
  predicate NoteMatches(n: Note, query: string) {
    var q := Lower(query);
    Contains(Lower(n.title), q) || SomeTagContains(n.tags, q) || Contains(Lower(n.content), q)
  }

  function Matching(query: string): Note -> bool {
    (n: Note) => NoteMatches(n, query)
  }

  /** `filteredNotes`: the notes the dashboard shows for a search query. */
  function FilteredNotes(notes: seq<Note>, query: string): (r: seq<Note>)
    ensures IsSubseq(r, notes)
    ensures forall i :: 0 <= i < |r| ==> r[i] in notes && NoteMatches(r[i], query)
    ensures forall i :: 0 <= i < |notes| && NoteMatches(notes[i], query) ==> notes[i] in r
    ensures forall n :: multiset(r)[n] == if NoteMatches(n, query) then multiset(notes)[n] else 0
  {
    FilterIsSubseq(notes, Matching(query));
    FilterCount(notes, Matching(query));
    FilterMembers(notes, Matching(query));
    Filter(notes, Matching(query))
  }

  /** The search predicate spelled with substring positions instead of `includes`. */
  lemma {:induction false} MatchesIff(n: Note, query: string)
    ensures NoteMatches(n, query) <==>
      var q := Lower(query);
      || (exists i :: OccursAt(Lower(n.title), q, i))
      || (exists k, i :: 0 <= k < |n.tags| && OccursAt(Lower(n.tags[k]), q, i))
      || (exists i :: OccursAt(Lower(n.content), q, i))
  {
    var q := Lower(query);
    ContainsIff(Lower(n.title), q);
    ContainsIff(Lower(n.content), q);
    forall k | 0 <= k < |n.tags| {
      ContainsIff(Lower(n.tags[k]), q);
    }
  }

  /** The empty query shows every note. */
  lemma {:induction false} EmptyQueryKeepsAll(notes: seq<Note>)
    ensures FilteredNotes(notes, "") == notes
  {
    forall i | 0 <= i < |notes| ensures Matching("")(notes[i]) {
      ContainsEmpty(Lower(notes[i].title));
    }
    FilterKeepsAll(notes, Matching(""));
  }

  /** Searching is case-insensitive: a query and its lowercased form show the same notes. */
  lemma {:induction false} LowercaseQuerySame(notes: seq<Note>, query: string)
    ensures FilteredNotes(notes, Lower(query)) == FilteredNotes(notes, query)
  {
    LowerIdempotent(query);
    FilterCongruent(notes, Matching(Lower(query)), Matching(query));
  }

  /** Participants, summary and action items are not searched. */
  lemma {:induction false} UnsearchedFields(n: Note, query: string, participants: seq<string>, summary: Option<string>,
                         actionItems: Option<seq<string>>)
    ensures NoteMatches(n.(participants := participants, summary := summary, actionItems := actionItems), query)
            == NoteMatches(n, query)
  {
  }

  /** A note that matches only in its participants is not shown. */
  lemma {:induction false} ParticipantOnlyExcluded(notes: seq<Note>, n: Note, query: string)
    requires !Contains(Lower(n.title), Lower(query)) && !Contains(Lower(n.content), Lower(query))
    requires forall k :: 0 <= k < |n.tags| ==> !Contains(Lower(n.tags[k]), Lower(query))
    ensures n !in FilteredNotes(notes, query)
  {
  }

  /** `{ ...noteData, userId: user.id }`. */
  function WithOwner(p: Patch, userId: string): (r: Patch)
    ensures r.userId == Some(userId)
    ensures r.(userId := p.userId) == p
  {
    p.(userId := Some(userId))
  }

  /** `handleSaveNote`: nothing happens without a logged-in user, and a thrown error is
      swallowed, so the store is then unchanged. */
  function HandleSaveNote(s: Store, user: Option<User>, noteData: Patch, now: int, freshId: string): (r: Store)
    ensures user.None? ==> r == s
    ensures r.users == s.users && r.session == s.session
    ensures user.Some? ==> forall i :: 0 <= i < |r.notes| && r.notes[i] !in s.notes ==> r.notes[i].userId == user.value.id
    ensures user.Some? ==>
      var step := SaveNote(s, WithOwner(noteData, user.value.id), now, freshId);
      && (step.result.Failure? ==> r == s)
      && (step.result.Success? ==>
            && r == step.store
            && step.result.value.userId == user.value.id
            && step.result.value in GetNotes(r, user.value.id))
  {
    match user
    case None => s
    case Some(u) =>
      var step := SaveNote(s, WithOwner(noteData, u.id), now, freshId);
      if step.result.Success? then
        SaveStoresOwnersNote(s, noteData, u.id, now, freshId);
        step.store
      else s
  }

  /** Saving through the dashboard stores a note of the logged-in user, whatever `userId`
      the payload carried, and the next listing of that user includes it. */
  lemma {:induction false} SaveStoresOwnersNote(s: Store, noteData: Patch, userId: string, now: int, freshId: string)
    ensures var step := SaveNote(s, WithOwner(noteData, userId), now, freshId);
            && (step.result.Success? ==> step.result.value.userId == userId)
            && (step.result.Success? ==> step.result.value in GetNotes(step.store, userId))
            && (forall i :: 0 <= i < |step.store.notes| && step.store.notes[i] !in s.notes ==>
                  step.store.notes[i].userId == userId)
  {
    var p := WithOwner(noteData, userId);
    var step := SaveNote(s, p, now, freshId);
    if step.result.Success? {
      StorageFacts.SaveThenList(s, p, now, freshId);
      if HasTruthyId(p) {
        var k :| FirstWithId(s.notes, p.id.value, k) && |step.store.notes| == |s.notes| &&
                 step.store.notes[k] == step.result.value &&
                 (forall i :: 0 <= i < |s.notes| && i != k ==> step.store.notes[i] == s.notes[i]) &&
                 MergedFrom(step.result.value, s.notes[k], p, now);
      }
    }
  }

  /** The modal opened on a stored note sends that note's id, so saving takes the update
      branch and finds it. */
  lemma {:induction false} EditTakesUpdateBranch(s: Store, n: Note, f: Form, userId: string, now: int, freshId: string)
    requires n in s.notes && Truthy(n.id)
    ensures var step := SaveNote(s, WithOwner(SavePayload(f, Some(n)), userId), now, freshId);
            step.result.Success? && |step.store.notes| == |s.notes| && step.result.value.id == n.id
  {
    var p := WithOwner(SavePayload(f, Some(n)), userId);
    var i :| 0 <= i < |s.notes| && s.notes[i] == n;
    assert s.notes[i].id == p.id.value;
  }

  /** The modal opened for a new note sends no id, so saving takes the create branch. */
  lemma {:induction false} NewTakesCreateBranch(s: Store, f: Form, userId: string, now: int, freshId: string)
    ensures var step := SaveNote(s, WithOwner(SavePayload(f, None), userId), now, freshId);
            step.result.Success? && step.store.notes == s.notes + [step.result.value] &&
            step.result.value.id == freshId && step.result.value.userId == userId
  {
  }

  /** Opening a note of the logged-in user in the modal and saving without edits changes only
      its update time, provided its lists are in the shape the parser produces. */
  lemma {:induction false} UneditedSaveKeepsNote(n: Note, now: int)
    requires forall k :: 0 <= k < |n.participants| ==> ListItem(n.participants[k])
    requires forall k :: 0 <= k < |n.tags| ==> ListItem(n.tags[k])
    ensures Merge(n, WithOwner(SavePayload(OpenForm(Some(n)), Some(n)), n.userId), now) == n.(updatedAt := now)
  {
    ListRoundTrip(n.participants);
    ListRoundTrip(n.tags);
  }

  /** The same through the store: saving the unedited modal of the first note with its id
      replaces that note by itself with only `updatedAt` moved to now. */
  lemma {:induction false} UneditedSaveKeepsStore(s: Store, k: int, now: int, freshId: string)
    requires 0 <= k < |s.notes| && FirstWithId(s.notes, s.notes[k].id, k) && Truthy(s.notes[k].id)
    requires forall j :: 0 <= j < |s.notes[k].participants| ==> ListItem(s.notes[k].participants[j])
    requires forall j :: 0 <= j < |s.notes[k].tags| ==> ListItem(s.notes[k].tags[j])
    ensures var n := s.notes[k];
            var step := SaveNote(s, WithOwner(SavePayload(OpenForm(Some(n)), Some(n)), n.userId), now, freshId);
            step.result == Success(n.(updatedAt := now)) && step.store == s.(notes := s.notes[k := n.(updatedAt := now)])
  {
    var n := s.notes[k];
    var p := WithOwner(SavePayload(OpenForm(Some(n)), Some(n)), n.userId);
    UneditedSaveKeepsNote(n, now);
    StorageFacts.SaveAtFirst(s, p, k, now, freshId);
  }
}
